/**
 * The iterator combinators the library chains together, on sequences:
 * `map`, `filter_map` (and `flatten` of options, a special case) and the
 * `try_join_all` of a list of fallible computations, run in list order.
 */
module Seqs {
  import opened Common

  function Map<A, B>(s: seq<A>, f: A -> B): (r: seq<B>)
    ensures |r| == |s| && forall i :: 0 <= i < |s| ==> r[i] == f(s[i])
  {
    seq(|s|, i requires 0 <= i < |s| => f(s[i]))
  }

  /** Keep, in order, the images `b` of the elements that `f` maps to `Some(b)`. */
  function FilterMap<A, B>(s: seq<A>, f: A -> Option<B>): (r: seq<B>)
    ensures |r| <= |s|
  {
    if s == [] then []
    else (match f(s[0]) case Some(b) => [b] case None => []) + FilterMap(s[1..], f)
  }

  function Identity<T>(): Option<T> -> Option<T>
  {
    o => o
  }

  /** `flatten` of a sequence of options: the present values, in order. */
  function Somes<T>(os: seq<Option<T>>): seq<T>
  {
    FilterMap(os, Identity())
  }

  /** Filtering distributes over concatenation, so it keeps the order of the input. */
  lemma {:induction false} FilterMapAppend<A, B>(s: seq<A>, t: seq<A>, f: A -> Option<B>)
    ensures FilterMap(s + t, f) == FilterMap(s, f) + FilterMap(t, f)
  {
    if s == [] {
      assert s + t == t;
    } else {
      assert (s + t)[0] == s[0];
      assert (s + t)[1..] == s[1..] + t;
      FilterMapAppend(s[1..], t, f);
    }
  }

  /** A value is kept exactly when some element of the input is mapped to it. */
  lemma {:induction false} FilterMapMember<A, B>(s: seq<A>, f: A -> Option<B>, b: B)
    ensures b in FilterMap(s, f) <==> exists i :: 0 <= i < |s| && f(s[i]) == Some(b)
  {
    if s != [] {
      FilterMapMember(s[1..], f, b);
      if b in FilterMap(s[1..], f) {
        var i :| 0 <= i < |s[1..]| && f(s[1..][i]) == Some(b);
        assert f(s[i + 1]) == Some(b);
      }
      if exists i :: 0 <= i < |s| && f(s[i]) == Some(b) {
        var i :| 0 <= i < |s| && f(s[i]) == Some(b);
        if i > 0 {
          assert f(s[1..][i - 1]) == Some(b);
        }
      }
    }
  }

  /** Every kept value is the image of some element of the input. */
  lemma FilterMapImages<A, B>(s: seq<A>, f: A -> Option<B>)
    ensures forall b :: b in FilterMap(s, f) ==> exists i :: 0 <= i < |s| && f(s[i]) == Some(b)
  {
    forall b | b in FilterMap(s, f)
      ensures exists i :: 0 <= i < |s| && f(s[i]) == Some(b)
    {
      FilterMapMember(s, f, b);
    }
  }

  /** Nothing is kept when every element is mapped to `None`. */
  lemma {:induction false} FilterMapNone<A, B>(s: seq<A>, f: A -> Option<B>)
    requires forall i :: 0 <= i < |s| ==> f(s[i]) == None
    ensures FilterMap(s, f) == []
  {
    if s != [] {
      assert forall i :: 0 <= i < |s[1..]| ==> f(s[1..][i]) == f(s[i + 1]);
      FilterMapNone(s[1..], f);
    }
  }

  /** Filtering with two functions that agree on the input gives the same result. */
  lemma {:induction false} FilterMapSameImages<A, B>(s: seq<A>, f: A -> Option<B>, g: A -> Option<B>)
    requires forall i :: 0 <= i < |s| ==> f(s[i]) == g(s[i])
    ensures FilterMap(s, f) == FilterMap(s, g)
  {
    if s != [] {
      assert forall i :: 0 <= i < |s[1..]| ==> f(s[1..][i]) == g(s[1..][i]);
      FilterMapSameImages(s[1..], f, g);
    }
  }

  /** Flattening the images of `f` is filtering with `f`. */
  lemma {:induction false} SomesOfImages<A, B>(s: seq<A>, os: seq<Option<B>>, f: A -> Option<B>)
    requires |os| == |s|
    requires forall i :: 0 <= i < |s| ==> os[i] == f(s[i])
    ensures Somes(os) == FilterMap(s, f)
  {
    if s != [] {
      assert os[0] == f(s[0]);
      assert forall i :: 0 <= i < |s[1..]| ==> os[1..][i] == f(s[1..][i]);
      SomesOfImages(s[1..], os[1..], f);
    }
  }

  /**
   * `try_join_all`: all values in order when every computation succeeds,
   * otherwise the error of the first one that fails.
   */
  function TryJoinAll<T>(rs: seq<Result<T>>): (r: Result<seq<T>>)
    ensures r.Ok? <==> forall i :: 0 <= i < |rs| ==> rs[i].Ok?
    ensures r.Ok? ==> |r.value| == |rs| && forall i :: 0 <= i < |rs| ==> r.value[i] == rs[i].value
    ensures r.Err? ==>
      exists k :: 0 <= k < |rs| && rs[k].Err? && rs[k].error == r.error && forall i :: 0 <= i < k ==> rs[i].Ok?
  {
    if rs == [] then Ok([])
    else match rs[0]
      case Err(e) => Err(e)
      case Ok(v) =>
        match TryJoinAll(rs[1..])
        case Err(e) => Err(e)
        case Ok(vs) => Ok([v] + vs)
  }
}
