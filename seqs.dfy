/** Generic sequence helpers: first index satisfying a predicate, and in-order
    concatenation of fallible string results (the `s += ...` loops of the renderer). */
module Seqs {
  import opened Wrappers

  /** The index of the first element of `s` satisfying `p`, or `|s|` if none does. */
  function FirstWhere<T>(s: seq<T>, p: T -> bool): (j: nat)
    ensures j <= |s|
    ensures forall k :: 0 <= k < j ==> !p(s[k])
    ensures j < |s| ==> p(s[j])
    decreases |s|
  {
    if s == [] then 0
    else if p(s[0]) then 0
    else 1 + FirstWhere(s[1..], p)
  }

  /** Sequence concatenation is associative; stated once so that crowded proofs can
      regroup a concatenation with a single call. */
  lemma ConcatAssoc<T>(a: seq<T>, b: seq<T>, c: seq<T>)
    ensures (a + b) + c == a + (b + c)
  {
  }

  /** Concatenates the texts of `rs` in order, stopping at the first failure. */
  function Collect<E>(rs: seq<Result<string, E>>): (r: Result<string, E>)
    ensures r.Success? <==> forall k :: 0 <= k < |rs| ==> rs[k].Success?
    ensures r.Failure? ==> exists j :: 0 <= j < |rs| && rs[j] == r && forall k :: 0 <= k < j ==> rs[k].Success?
    decreases |rs|
  {
    if rs == [] then Success("")
    else match rs[0]
      case Failure(e) => Failure(e)
      case Success(t) =>
        match Collect(rs[1..])
        case Failure(e) => Failure(e)
        case Success(u) => Success(t + u)
  }

  /** Collecting a concatenation is collecting each part and concatenating the texts,
      with the first part's failure taking precedence. */
  lemma {:induction false} CollectAppend<E>(a: seq<Result<string, E>>, b: seq<Result<string, E>>)
    ensures Collect(a + b) ==
      match Collect(a)
      case Failure(e) => Failure(e)
      case Success(x) =>
        match Collect(b)
        case Failure(e) => Failure(e)
        case Success(y) => Success(x + y)
    decreases |a|
  {
    if a == [] {
      assert a + b == b;
      match Collect(b)
      case Failure(e) =>
      case Success(y) => assert "" + y == y;
    } else {
      assert (a + b)[0] == a[0];
      assert (a + b)[1..] == a[1..] + b;
      CollectAppend(a[1..], b);
      match a[0]
      case Failure(e) =>
      case Success(t) =>
        match Collect(a[1..])
        case Failure(e) =>
        case Success(u) =>
          match Collect(b)
          case Failure(e) =>
          case Success(y) =>
            assert t + (u + y) == (t + u) + y;
    }
  }

  /** One more element at the end: the loop step of every `s += ...` loop. */
  lemma CollectSnoc<E>(a: seq<Result<string, E>>, x: string, r: Result<string, E>)
    requires Collect(a) == Success(x)
    ensures Collect(a + [r]) == match r case Failure(e) => Failure(e) case Success(t) => Success(x + t)
  {
    CollectAppend(a, [r]);
    assert [r][1..] == [];
    match r
    case Failure(e) =>
    case Success(t) => assert t + "" == t;
  }

  /** The search skips a prefix in which nothing satisfies `p`. */
  lemma {:induction false} FirstWhereAppend<T>(a: seq<T>, b: seq<T>, p: T -> bool)
    requires forall k :: 0 <= k < |a| ==> !p(a[k])
    ensures FirstWhere(a + b, p) == |a| + FirstWhere(b, p)
    decreases |a|
  {
    if a != [] {
      assert (a + b)[0] == a[0];
      assert (a + b)[1..] == a[1..] + b;
      FirstWhereAppend(a[1..], b, p);
    } else {
      assert a + b == b;
    }
  }

  /** The loop exit of every `s += ...` loop that stops at a failing element: when the
      elements before `i` all succeed and element `i` fails, the whole collection fails
      with it. */
  lemma CollectFailsAt<E>(rs: seq<Result<string, E>>, i: nat)
    requires i < |rs| && rs[i].Failure?
    requires Collect(rs[..i]).Success?
    ensures Collect(rs) == rs[i]
  {
    assert forall k :: 0 <= k < i ==> rs[..i][k].Success?;
  }
}
