/** Shared vocabulary: optional values, calls that may raise, loosely typed
    request values, and the reference meaning of an early-return chain. */
module Common {

  datatype Option<+T> = None | Some(value: T)

  /** The outcome of a call into code outside the model that may raise:
      either its value, or the text of the exception (`str(e)`). */
  datatype Result<+T> = Ok(value: T) | Raised(error: string)

  /** A value taken from a request, a session or a database row: absent
      (`None`), a text, or an integer. */
  datatype Value = Null | Text(s: string) | Number(n: int)

  /** Python truthiness of such a value: `None`, `''` and `0` are falsy. */
  predicate Truthy(v: Value)
  {
    match v
    case Null => false
    case Text(s) => s != ""
    case Number(n) => n != 0
  }

  /** Truthiness of an optional text field (`request.form.get(...)`). */
  predicate Filled(f: Option<string>)
  {
    f.Some? && f.value != ""
  }

  function AsValue(f: Option<string>): Value
  {
    match f
    case None => Null
    case Some(s) => Text(s)
  }

  /** One guard of an early-return chain: whether it passes, and what the
      chain reports when it is the first one that does not. */
  datatype Check<+E> = Check(passes: bool, failure: E)

  /** The position of the first failing guard, or |checks| when all pass. */
  function FirstFailingIndex<E>(checks: seq<Check<E>>): (k: nat)
    ensures k <= |checks|
    ensures forall j :: 0 <= j < k ==> checks[j].passes
    ensures k < |checks| ==> !checks[k].passes
  {
    if checks == [] then 0
    else if !checks[0].passes then 0
    else 1 + FirstFailingIndex(checks[1..])
  }

  /** What a chain of early returns reports: the failure of the first guard
      that does not pass, in order, or None when every guard passes. */
  function FirstFailure<E>(checks: seq<Check<E>>): (r: Option<E>)
    ensures r.None? <==> forall j :: 0 <= j < |checks| ==> checks[j].passes
    ensures r.Some? ==> exists k :: 0 <= k < |checks| && !checks[k].passes &&
                                    checks[k].failure == r.value &&
                                    forall j :: 0 <= j < k ==> checks[j].passes
  {
    var k := FirstFailingIndex(checks);
    if k < |checks| then Some(checks[k].failure) else None
  }

  /** Unfolding the chain by one guard. */
  lemma FirstFailureCons<E>(c: Check<E>, rest: seq<Check<E>>)
    ensures FirstFailure([c] + rest) == if c.passes then FirstFailure(rest) else Some(c.failure)
  {
    assert ([c] + rest)[1..] == rest;
  }

  /** A chain of three guards reports the first of them that fails. */
  lemma FirstFailureOfThree<E>(a: Check<E>, b: Check<E>, c: Check<E>)
    ensures FirstFailure([a, b, c]) ==
            if !a.passes then Some(a.failure)
            else if !b.passes then Some(b.failure)
            else if !c.passes then Some(c.failure)
            else None
  {
    var cs := [a, b, c];
    FirstFailureCons(a, cs[1..]);
    FirstFailureCons(b, cs[2..]);
    FirstFailureCons(c, cs[3..]);
    assert [a] + cs[1..] == cs;
    assert [b] + cs[2..] == cs[1..];
    assert [c] + cs[3..] == cs[2..];
    assert cs[3..] == [];
  }

  /** A chain of five guards reports the first of them that fails. */
  lemma FirstFailureOfFive<E>(a: Check<E>, b: Check<E>, c: Check<E>, d: Check<E>, e: Check<E>)
    ensures FirstFailure([a, b, c, d, e]) ==
            if !a.passes then Some(a.failure)
            else if !b.passes then Some(b.failure)
            else if !c.passes then Some(c.failure)
            else if !d.passes then Some(d.failure)
            else if !e.passes then Some(e.failure)
            else None
  {
    var cs := [a, b, c, d, e];
    FirstFailureCons(a, cs[1..]);
    FirstFailureCons(b, cs[2..]);
    FirstFailureCons(c, cs[3..]);
    FirstFailureCons(d, cs[4..]);
    FirstFailureCons(e, cs[5..]);
    assert [a] + cs[1..] == cs;
    assert [b] + cs[2..] == cs[1..];
    assert [c] + cs[3..] == cs[2..];
    assert [d] + cs[4..] == cs[3..];
    assert [e] + cs[5..] == cs[4..];
    assert cs[5..] == [];
  }
}
