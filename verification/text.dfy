/**
 * The string operations the lookup code relies on: Python's `str.lower`,
 * `startswith`, `endswith`, `in` and `replace`, and JavaScript's `trim`,
 * `toLowerCase`, `startsWith`, `includes` and `replace` with a string pattern.
 */
module Text {

  /** Lower-casing of one character; only the ASCII letters A-Z are mapped. */
  function LowerChar(c: char): (d: char)
    ensures 'A' <= c <= 'Z' ==> 'a' <= d <= 'z' && d as int - c as int == 32
    ensures !('A' <= c <= 'Z') ==> d == c
  {
    if 'A' <= c <= 'Z' then (c as int + 32) as char else c
  }

  /** `s.lower()` / `s.toLowerCase()`. */
  function Lower(s: string): (r: string)
    ensures |r| == |s|
    ensures forall i :: 0 <= i < |s| ==> r[i] == LowerChar(s[i])
  {
    if s == [] then [] else [LowerChar(s[0])] + Lower(s[1..])
  }

  /** Lower-casing an already lower-cased string changes nothing. */
  lemma {:induction false} LowerIdempotent(s: string)
    ensures Lower(Lower(s)) == Lower(s)
  {
    if s != [] {
      LowerIdempotent(s[1..]);
      assert Lower(s) == [LowerChar(s[0])] + Lower(s[1..]);
      assert Lower(s)[1..] == Lower(s[1..]);
    }
  }

  /** `s.startswith(p)` / `s.startsWith(p)`: every string starts with "". */
  predicate StartsWith(s: string, p: string) {
    p <= s
  }

  /** `s.endswith(p)`. */
  predicate EndsWith(s: string, p: string) {
    |p| <= |s| && s[|s| - |p|..] == p
  }

  /** `sub in s` / `s.includes(sub)`: `sub` occurs in `s` as a contiguous block. */
  predicate Contains(s: string, sub: string)
    decreases |s|
  {
    StartsWith(s, sub) || (s != [] && Contains(s[1..], sub))
  }

  /** `sub` occurs in `s` starting at index `i`. */
  predicate OccursAt(s: string, sub: string, i: int) {
    0 <= i <= |s| - |sub| && s[i..i + |sub|] == sub
  }

  /** Contains agrees with the positional definition of an occurrence. */
  lemma {:induction false} ContainsAt(s: string, sub: string)
    ensures Contains(s, sub) <==> exists i :: OccursAt(s, sub, i)
  {
    if s == [] {
      if Contains(s, sub) {
        assert OccursAt(s, sub, 0);
      }
    } else {
      ContainsAt(s[1..], sub);
      if Contains(s, sub) {
        if StartsWith(s, sub) {
          assert OccursAt(s, sub, 0);
        } else {
          var i :| OccursAt(s[1..], sub, i);
          assert s[1..][i..i + |sub|] == s[i + 1..i + 1 + |sub|];
          assert OccursAt(s, sub, i + 1);
        }
      }
      if exists i :: OccursAt(s, sub, i) {
        var i :| OccursAt(s, sub, i);
        if i > 0 {
          assert s[1..][i - 1..i - 1 + |sub|] == s[i..i + |sub|];
          assert OccursAt(s[1..], sub, i - 1);
        }
      }
    }
  }

  /** A string contains whatever is written inside it. */
  lemma {:induction false} ContainsWithin(a: string, sub: string, b: string)
    ensures Contains(a + sub + b, sub)
  {
    if a != [] {
      ContainsWithin(a[1..], sub, b);
      assert (a + sub + b)[1..] == a[1..] + sub + b;
    }
  }

  /**
   * The characters ECMAScript's `String.prototype.trim` strips: WhiteSpace
   * (tab, vertical tab, form feed, space, no-break space, the Unicode space
   * separators and the byte order mark) and LineTerminator.
   */
  predicate IsSpace(c: char) {
    || c == '\t' || c == '\n' || c == '\U{B}' || c == '\U{C}' || c == '\r' || c == ' '
    || c == '\U{A0}' || c == '\U{1680}' || ('\U{2000}' <= c <= '\U{200A}')
    || c == '\U{2028}' || c == '\U{2029}' || c == '\U{202F}' || c == '\U{205F}'
    || c == '\U{3000}' || c == '\U{FEFF}'
  }

  /** Lower-casing neither creates nor removes white space. */
  lemma LowerKeepsSpace(c: char)
    ensures IsSpace(LowerChar(c)) <==> IsSpace(c)
  {
    if 'A' <= c <= 'Z' {
      assert 'a' <= LowerChar(c) <= 'z';
    }
  }

  /** A string that neither starts nor ends with white space keeps that when lower-cased. */
  lemma LowerKeepsTrimmed(t: string)
    requires t == [] || (!IsSpace(t[0]) && !IsSpace(t[|t| - 1]))
    ensures Lower(t) == [] || (!IsSpace(Lower(t)[0]) && !IsSpace(Lower(t)[|t| - 1]))
  {
    if t != [] {
      LowerKeepsSpace(t[0]);
      LowerKeepsSpace(t[|t| - 1]);
    }
  }

  /** How many white-space characters `s` starts with. */
  function LeadingSpace(s: string): (n: nat)
    ensures n <= |s|
    ensures n < |s| ==> !IsSpace(s[n])
  {
    if s != [] && IsSpace(s[0]) then 1 + LeadingSpace(s[1..]) else 0
  }

  /** How many white-space characters `s` ends with. */
  function TrailingSpace(s: string): (n: nat)
    ensures n <= |s|
    ensures n < |s| ==> !IsSpace(s[|s| - 1 - n])
  {
    if s != [] && IsSpace(s[|s| - 1]) then 1 + TrailingSpace(s[..|s| - 1]) else 0
  }

  /** Every character of `u` is white space. */
  predicate Blank(u: string) {
    forall j :: 0 <= j < |u| ==> IsSpace(u[j])
  }

  /** The leading characters counted by LeadingSpace are all white space. */
  lemma {:induction false} LeadingSpaceBlank(s: string)
    ensures Blank(s[..LeadingSpace(s)])
  {
    if s != [] && IsSpace(s[0]) {
      LeadingSpaceBlank(s[1..]);
      var head := s[..LeadingSpace(s)];
      forall j | 0 <= j < |head|
        ensures IsSpace(head[j])
      {
        if 0 < j {
          assert head[j] == s[1..][..LeadingSpace(s[1..])][j - 1];
        }
      }
    }
  }

  /** The trailing characters counted by TrailingSpace are all white space. */
  lemma {:induction false} TrailingSpaceBlank(s: string)
    ensures Blank(s[|s| - TrailingSpace(s)..])
  {
    if s != [] && IsSpace(s[|s| - 1]) {
      var init := s[..|s| - 1];
      TrailingSpaceBlank(init);
      var tail := s[|s| - TrailingSpace(s)..];
      forall j | 0 <= j < |tail|
        ensures IsSpace(tail[j])
      {
        if j < |tail| - 1 {
          assert tail[j] == init[|init| - TrailingSpace(init)..][j];
        }
      }
    }
  }

  /** `s` with its leading white space removed. */
  function TrimStart(s: string): (r: string)
    ensures r == [] || !IsSpace(r[0])
  {
    s[LeadingSpace(s)..]
  }

  /** `s` with its trailing white space removed. */
  function TrimEnd(s: string): (r: string)
    ensures r == [] || !IsSpace(r[|r| - 1])
  {
    s[..|s| - TrailingSpace(s)]
  }

  /** `s.trim()`: the middle part of `s` that neither starts nor ends with white space. */
  function Trim(s: string): (r: string)
    ensures r == [] || (!IsSpace(r[0]) && !IsSpace(r[|r| - 1]))
  {
    TrimEnd(TrimStart(s))
  }

  /** A string that neither starts nor ends with white space is its own trim. */
  lemma TrimmedFixed(t: string)
    requires t == [] || (!IsSpace(t[0]) && !IsSpace(t[|t| - 1]))
    ensures Trim(t) == t
  {
    assert LeadingSpace(t) == 0;
    assert t[0..] == t;
    assert TrailingSpace(t) == 0;
  }

  /**
   * Trim removes white space, and only white space, from both ends: the
   * result sits in `s` right after the leading white space, and only white
   * space follows it.
   */
  lemma {:induction false} TrimIsSlice(s: string)
    ensures OccursAt(s, Trim(s), LeadingSpace(s))
    ensures Blank(s[..LeadingSpace(s)])
    ensures Blank(s[LeadingSpace(s) + |Trim(s)|..])
  {
    var i := LeadingSpace(s);
    var t := s[i..];
    var m := |t| - TrailingSpace(t);
    assert Trim(s) == t[..m];
    assert t[..m] == s[i..i + m];
    LeadingSpaceBlank(s);
    TrailingSpaceBlank(t);
    assert t[m..] == s[i + m..];
  }

  /** Python `s.replace(c, "")` for a one-character `c`: every occurrence goes. */
  function RemoveAll(s: string, c: char): (r: string)
    ensures c !in r
    ensures c !in s ==> r == s
    ensures |r| <= |s|
    ensures multiset(r) == multiset(s)[c := 0]
  {
    if s == [] then []
    else
      assert s == [s[0]] + s[1..];
      if s[0] == c then RemoveAll(s[1..], c)
      else [s[0]] + RemoveAll(s[1..], c)
  }

  /** JavaScript `s.replace(c, '')` with a string pattern: only the first occurrence goes. */
  function RemoveFirst(s: string, c: char): (r: string)
    ensures c !in s ==> r == s
    ensures c in s ==> |r| == |s| - 1
  {
    if s == [] then []
    else if s[0] == c then s[1..]
    else [s[0]] + RemoveFirst(s[1..], c)
  }

  /** RemoveFirst cuts out exactly the first occurrence of `c`. */
  lemma {:induction false} RemoveFirstAt(s: string, c: char, i: nat)
    requires i < |s| && s[i] == c && c !in s[..i]
    ensures RemoveFirst(s, c) == s[..i] + s[i + 1..]
  {
    if i > 0 {
      assert s[0] == s[..i][0];
      assert c !in s[1..][..i - 1] by { assert s[1..][..i - 1] == s[..i][1..]; }
      RemoveFirstAt(s[1..], c, i - 1);
      assert s[..i] == [s[0]] + s[1..][..i - 1];
    }
  }

  /**
   * The two ways of cleaning an affix agree when the marker occurs at most
   * once, and only then: with a second marker, the JavaScript form keeps it.
   */
  lemma {:induction false} RemoveFirstVersusAll(s: string, c: char)
    ensures (RemoveFirst(s, c) == RemoveAll(s, c)) <==> c !in RemoveFirst(s, c)
  {
    if s != [] {
      if s[0] == c {
      } else {
        RemoveFirstVersusAll(s[1..], c);
        assert RemoveFirst(s, c) == [s[0]] + RemoveFirst(s[1..], c);
        assert RemoveAll(s, c) == [s[0]] + RemoveAll(s[1..], c);
      }
    }
  }

  /** After the first `c` is gone, removing every `c` leaves what removing every `c` from the original leaves. */
  lemma {:induction false} RemoveAllAfterFirst(s: string, c: char)
    ensures RemoveAll(RemoveFirst(s, c), c) == RemoveAll(s, c)
  {
    if s != [] && s[0] != c {
      RemoveAllAfterFirst(s[1..], c);
      assert ([s[0]] + RemoveFirst(s[1..], c))[1..] == RemoveFirst(s[1..], c);
    }
  }
}
