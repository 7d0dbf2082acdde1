/** Loops over a list that stop at the first failure, as the core's
    `for` loops that throw do. */
module Sequences {
  import opened Wrappers

  /** Applies `f` to every element in order, stopping at the first failure. */
  function MapAll<A, B, E>(f: A -> Result<B, E>, s: seq<A>): (r: Result<seq<B>, E>)
    ensures r.Ok? ==> |r.value| == |s| && forall i :: 0 <= i < |s| ==> f(s[i]) == Ok(r.value[i])
    ensures r.Err? ==> exists i :: 0 <= i < |s| && f(s[i]) == Err(r.error) && forall j :: 0 <= j < i ==> f(s[j]).Ok?
  {
    if |s| == 0 then Ok([])
    else
      var front := MapAll(f, s[..|s| - 1]);
      if front.Err? then
        Err(front.error)
      else
        var last := f(s[|s| - 1]);
        if last.Err? then Err(last.error) else Ok(front.value + [last.value])
  }

  /** One more element: the step a loop takes. */
  lemma {:induction false} MapAllStep<A, B, E>(f: A -> Result<B, E>, s: seq<A>, i: nat)
    requires i < |s|
    ensures MapAll(f, s[..i + 1]) ==
      match MapAll(f, s[..i])
      case Err(e) => Err(e)
      case Ok(front) => match f(s[i])
        case Err(e) => Err(e)
        case Ok(b) => Ok(front + [b])
  {
    assert s[..i + 1][..i] == s[..i];
  }

  /** One more element at the end. */
  lemma {:induction false} MapAllSnoc<A, B, E>(f: A -> Result<B, E>, s: seq<A>, x: A)
    ensures MapAll(f, s + [x]) ==
      match MapAll(f, s)
      case Err(e) => Err(e)
      case Ok(front) => match f(x)
        case Err(e) => Err(e)
        case Ok(b) => Ok(front + [b])
  {
    assert (s + [x])[..|s|] == s;
  }

  /** Once a prefix has failed, the whole list fails with the same error. */
  lemma {:induction false} MapAllPrefixErr<A, B, E>(f: A -> Result<B, E>, s: seq<A>, i: nat)
    requires i <= |s| && MapAll(f, s[..i]).Err?
    ensures MapAll(f, s) == MapAll(f, s[..i])
    decreases |s| - i
  {
    if i < |s| {
      MapAllStep(f, s, i);
      MapAllPrefixErr(f, s, i + 1);
    } else {
      assert s[..i] == s;
    }
  }

  /** Mapping a concatenation maps the first part, then the second. */
  lemma {:induction false} MapAllConcat<A, B, E>(f: A -> Result<B, E>, a: seq<A>, b: seq<A>)
    ensures MapAll(f, a + b) ==
      match MapAll(f, a)
      case Err(e) => Err(e)
      case Ok(x) => match MapAll(f, b)
        case Err(e) => Err(e)
        case Ok(y) => Ok(x + y)
    decreases |b|
  {
    if |b| == 0 {
      assert a + b == a;
      if MapAll(f, a).Ok? {
        assert MapAll(f, a).value + [] == MapAll(f, a).value;
      }
    } else {
      var front := b[..|b| - 1];
      assert (a + b)[..|a + b| - 1] == a + front;
      MapAllConcat(f, a, front);
      if MapAll(f, a).Ok? && MapAll(f, front).Ok? && f(b[|b| - 1]).Ok? {
        assert MapAll(f, a).value + (MapAll(f, front).value + [f(b[|b| - 1]).value]) ==
               (MapAll(f, a).value + MapAll(f, front).value) + [f(b[|b| - 1]).value];
      }
    }
  }

  /** Regrouping a concatenation, stated once so that loop proofs need not
      rediscover it. */
  lemma {:induction false} ConcatAssociative<T>(a: seq<T>, b: seq<T>, c: seq<T>)
    ensures (a + b) + c == a + (b + c)
  {
  }
}
