/** Small datatypes shared by the models. */
module Base {
  datatype Option<+T> = None | Some(value: T)

  /** A NULL-able or optional value carries its content only when present. */
  function OrElse<T>(o: Option<T>, d: T): T {
    if o.Some? then o.value else d
  }

  function Min(a: int, b: int): int { if a < b then a else b }

  lemma SubsetSize<T>(a: set<T>, b: set<T>)
    requires a <= b
    ensures |a| <= |b|
  {
    assert b == a + (b - a);
  }

  /** Runs of a system, oldest step first: the data every statement about all runs recurses over. */
  datatype History<T> = Start | Then(before: History<T>, last: T)
}
