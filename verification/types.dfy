/** The records the todo service stores and the inputs its handlers take
    (src/types.rs). The lock-protected shared store is reduced to the list
    it protects: every handler is one atomic step over a `TodoList`. */
module Types {

  /** Largest value of Rust's `usize` on a 64-bit target. */
  const USIZE_MAX: nat := 0xFFFF_FFFF_FFFF_FFFF

  /** Rust's `usize`: the identifier parsed from a request path, and the
      search limit. */
  type Usize = n: nat | n <= USIZE_MAX

  /** Rust's `Option`, for the optional fields of a search. */
  datatype Option<T> = None | Some(value: T) {

    /** The carried value, or `default` when there is none. */
    function UnwrapOr(default: T): (r: T)
      ensures Some? ==> r == value
      ensures None? ==> r == default
    {
      match this
      case Some(v) => v
      case None => default
    }
  }

  /** One todo item. It carries no identifier of its own: its identity is its
      position in the list. */
  datatype Todo = Todo(title: string, description: string, complete: bool)

  /** The body of an update request: only the two text fields, so an update
      has no way to name a completion status. */
  datatype TodoPatch = TodoPatch(title: string, description: string)

  /** The query string of a search request; every field may be absent. */
  datatype Search = Search(query: Option<string>, limit: Option<Usize>, filter: Option<string>)

  /** The whole collection. The identifier of an item is its index. */
  type TodoList = seq<Todo>

  /** The list a freshly started service holds. */
  function NewStore(): (s: TodoList)
    ensures |s| == 0
  {
    []
  }
}
