/** Query semantics shared by the repositories: knex's
    `.where(...).first()` and `.where(...).del()` over a table kept as a
    sequence of rows in insertion order. */
module Tables {
  import opened Wrappers

  /** `.where(p).first()`: the position of the first row satisfying `p`,
      or `None` when no row does. */
  function FirstMatch<T>(rows: seq<T>, p: T -> bool): (r: Option<nat>)
    ensures r.Some? ==> r.value < |rows| && p(rows[r.value])
    ensures r.Some? ==> forall j | 0 <= j < r.value :: !p(rows[j])
    ensures r.None? <==> forall j | 0 <= j < |rows| :: !p(rows[j])
  {
    if rows == [] then None
    else if p(rows[0]) then Some(0)
    else match FirstMatch(rows[1..], p)
      case None => None
      case Some(k) => Some(k + 1)
  }

  /** The rows that do not satisfy `p`, in their order: what is left after
      `.where(p).del()`. */
  function Without<T>(rows: seq<T>, p: T -> bool): (r: seq<T>)
    ensures |r| <= |rows|
    ensures forall i | 0 <= i < |r| :: r[i] in rows && !p(r[i])
    ensures forall j | 0 <= j < |rows| && !p(rows[j]) :: rows[j] in r
  {
    if rows == [] then []
    else if p(rows[0]) then Without(rows[1..], p)
    else [rows[0]] + Without(rows[1..], p)
  }
}
