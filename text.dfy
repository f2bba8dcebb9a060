/**
 * The string rules of the resolution logic: case-insensitive detection of
 * license file names, the `./` prefix strip of listing links, and the
 * `", "` join of the unlicensed report.
 */
module Text {
  import opened Common

  function LowerChar(c: char): char
  {
    if 'A' <= c <= 'Z' then (c as int + 32) as char else c
  }

  /** `to_lowercase`, on ASCII letters: no upper-case letter is left, and every other character is kept. */
  function Lower(s: string): (r: string)
    ensures |r| == |s|
    ensures forall i :: 0 <= i < |s| ==> !('A' <= r[i] <= 'Z')
    ensures forall i :: 0 <= i < |s| && !('A' <= s[i] <= 'Z') ==> r[i] == s[i]
    ensures forall i :: 0 <= i < |s| && 'A' <= s[i] <= 'Z' ==> r[i] as int == s[i] as int + 32
  {
    seq(|s|, i requires 0 <= i < |s| => LowerChar(s[i]))
  }

  predicate IsPrefix(p: string, s: string)
  {
    |p| <= |s| && s[..|p|] == p
  }

  /** `str::contains`: `sub` occurs somewhere in `s`. */
  predicate Contains(s: string, sub: string)
    decreases |s|
  {
    IsPrefix(sub, s) || (|s| > 0 && Contains(s[1..], sub))
  }

  /** The test applied to hrefs and to anchor texts: lower-cased, it mentions a license. */
  predicate IsLicenseName(s: string)
  {
    Contains(Lower(s), "license") || Contains(Lower(s), "licence")
  }

  /** `str::strip_prefix`. */
  function StripPrefix(s: string, p: string): (r: Option<string>)
    ensures r.Some? <==> IsPrefix(p, s)
    ensures r.Some? ==> p + r.value == s
  {
    if IsPrefix(p, s) then Some(s[|p|..]) else None
  }

  /** Itertools' `join`: the items in order with `sep` between neighbours. */
  function Join(xs: seq<string>, sep: string): (r: string)
    requires sep != []
    ensures r == [] <==> (|xs| == 0 || (|xs| == 1 && xs[0] == []))
  {
    if |xs| == 0 then ""
    else if |xs| == 1 then xs[0]
    else xs[0] + sep + Join(xs[1..], sep)
  }

  /** `sub` occurs in `s` exactly when it starts at some position of `s`. */
  lemma {:induction false} ContainsAt(s: string, sub: string)
    ensures Contains(s, sub) <==> exists i :: 0 <= i <= |s| - |sub| && s[i..][..|sub|] == sub
  {
    if IsPrefix(sub, s) {
      assert s[0..][..|sub|] == sub;
    } else if |s| > 0 {
      ContainsAt(s[1..], sub);
      if Contains(s[1..], sub) {
        var i :| 0 <= i <= |s[1..]| - |sub| && s[1..][i..][..|sub|] == sub;
        assert s[i + 1..] == s[1..][i..];
      }
      if exists i :: 0 <= i <= |s| - |sub| && s[i..][..|sub|] == sub {
        var i :| 0 <= i <= |s| - |sub| && s[i..][..|sub|] == sub;
        assert i != 0;
        assert s[1..][i - 1..] == s[i..];
      }
    }
  }

  /** A string occurs in any string built around it. */
  lemma ContainsInMiddle(a: string, x: string, b: string)
    ensures Contains(a + x + b, x)
  {
    ContainsAt(a + x + b, x);
    assert (a + x + b)[|a|..][..|x|] == x;
  }

  /** What occurs in `t` still occurs once something is put in front of `t`. */
  lemma ContainsAfter(u: string, t: string, x: string)
    requires Contains(t, x)
    ensures Contains(u + t, x)
  {
    ContainsAt(t, x);
    ContainsAt(u + t, x);
    var i :| 0 <= i <= |t| - |x| && t[i..][..|x|] == x;
    assert (u + t)[|u| + i..][..|x|] == t[i..][..|x|];
  }

  /** Every item occurs in the joined string. */
  lemma {:induction false} JoinContains(xs: seq<string>, sep: string, i: nat)
    requires sep != [] && i < |xs|
    ensures Contains(Join(xs, sep), xs[i])
    decreases |xs|
  {
    if |xs| == 1 {
      ContainsInMiddle([], xs[0], []);
      assert [] + xs[0] + [] == xs[0];
    } else if i == 0 {
      ContainsInMiddle([], xs[0], sep + Join(xs[1..], sep));
      assert [] + xs[0] + (sep + Join(xs[1..], sep)) == Join(xs, sep);
    } else {
      JoinContains(xs[1..], sep, i - 1);
      ContainsAfter(xs[0] + sep, Join(xs[1..], sep), xs[i]);
    }
  }

  /** `JoinContains`, for all items at once. */
  lemma JoinContainsAll(xs: seq<string>, sep: string)
    requires sep != []
    ensures forall i :: 0 <= i < |xs| ==> Contains(Join(xs, sep), xs[i])
  {
    forall i | 0 <= i < |xs|
      ensures Contains(Join(xs, sep), xs[i])
    {
      JoinContains(xs, sep, i);
    }
  }

  /**
   * A name passes the license test exactly when, lower-cased, it has
   * "license" or "licence" starting at some position.
   */
  lemma IsLicenseNameExactly(s: string)
    ensures IsLicenseName(s) <==>
      exists i :: 0 <= i <= |s| - 7 && (Lower(s)[i..][..7] == "license" || Lower(s)[i..][..7] == "licence")
  {
    ContainsAt(Lower(s), "license");
    ContainsAt(Lower(s), "licence");
  }
}
