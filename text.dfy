/** The Python string operations the weapon categorisation relies on:
    `str.lower`, `str.split(sep)`, `str.strip()` and the substring test `t in s`,
    restricted to ASCII where Python's versions are Unicode-aware. */
module Text {

  /** ASCII lower-casing of one character; other characters are unchanged. */
  function LowerChar(c: char): (r: char)
    ensures !('A' <= r <= 'Z')
    ensures 'A' <= c <= 'Z' ==> r as int == c as int + 32
    ensures !('A' <= c <= 'Z') ==> r == c
  {
    if 'A' <= c <= 'Z' then (c as int + 32) as char else c
  }

  /** `s.lower()` on ASCII text. */
  function Lower(s: string): (r: string)
    ensures |r| == |s|
    ensures forall i :: 0 <= i < |s| ==> r[i] == LowerChar(s[i])
  {
    if s == [] then [] else [LowerChar(s[0])] + Lower(s[1..])
  }

  /** Lower-casing twice is lower-casing once. */
  lemma LowerIdempotent(s: string)
    ensures Lower(Lower(s)) == Lower(s)
  {
    assert forall i :: 0 <= i < |s| ==> LowerChar(LowerChar(s[i])) == LowerChar(s[i]);
  }

  /** `s.split(sep)`: the pieces between occurrences of `sep`. Like Python's,
      it never returns an empty list: the empty string gives `[""]`, and a
      separator at either end gives an empty first or last piece. */
  function Split(s: string, sep: char): (r: seq<string>)
    ensures |r| >= 1
    ensures forall k :: 0 <= k < |r| ==> sep !in r[k]
    decreases |s|
  {
    if s == [] then [""]
    else
      var rest := Split(s[1..], sep);
      if s[0] == sep then [""] + rest
      else [[s[0]] + rest[0]] + rest[1..]
  }

  /** `sep.join(pieces)`, the inverse of `Split`. */
  function Join(pieces: seq<string>, sep: char): string
    requires |pieces| >= 1
    decreases |pieces|
  {
    if |pieces| == 1 then pieces[0] else pieces[0] + [sep] + Join(pieces[1..], sep)
  }

  /** Splitting loses nothing: joining the pieces back gives the original text. */
  lemma {:induction false} JoinSplit(s: string, sep: char)
    ensures Join(Split(s, sep), sep) == s
    decreases |s|
  {
    if s != [] {
      var rest := Split(s[1..], sep);
      JoinSplit(s[1..], sep);
      if s[0] == sep {
        assert Split(s, sep)[1..] == rest;
        assert s == [sep] + s[1..];
      } else {
        var pieces := Split(s, sep);
        assert pieces[0] == [s[0]] + rest[0];
        assert pieces[1..] == rest[1..];
        if |rest| == 1 {
          assert s == [s[0]] + rest[0];
        } else {
          assert Join(rest, sep) == rest[0] + [sep] + Join(rest[1..], sep);
          assert s == [s[0]] + s[1..];
        }
      }
    }
  }

  /** `Split` is the only way to cut `s` into separator-free pieces that join
      back to `s`. */
  lemma {:induction false} SplitUnique(s: string, sep: char, pieces: seq<string>)
    requires |pieces| >= 1 && Join(pieces, sep) == s
    requires forall k :: 0 <= k < |pieces| ==> sep !in pieces[k]
    ensures Split(s, sep) == pieces
    decreases |s|
  {
    if |pieces| > 1 {
      assert s == pieces[0] + [sep] + Join(pieces[1..], sep);
    }
    if s == [] {
      assert |pieces| == 1;
    } else if pieces[0] == [] {
      assert |pieces| > 1;
      assert s[1..] == Join(pieces[1..], sep);
      SplitUnique(s[1..], sep, pieces[1..]);
      assert pieces == [""] + pieces[1..];
    } else {
      var first := pieces[0];
      var rest := [first[1..]] + pieces[1..];
      assert s[0] == first[0] != sep;
      assert rest[1..] == pieces[1..];
      if |pieces| > 1 {
        assert s[1..] == first[1..] + [sep] + Join(pieces[1..], sep);
      }
      assert Join(rest, sep) == s[1..];
      assert forall k :: 0 <= k < |rest| ==> sep !in rest[k] by {
        assert forall c :: c in first[1..] ==> c in first;
      }
      SplitUnique(s[1..], sep, rest);
      assert first == [s[0]] + rest[0];
      assert pieces == [first] + pieces[1..];
    }
  }

  /** Text without upper-case letters is its own lower-case form. */
  lemma {:induction false} LowerOfLowerCase(s: string)
    requires forall i :: 0 <= i < |s| ==> !('A' <= s[i] <= 'Z')
    ensures Lower(s) == s
  {
  }

  /** The characters Python's `str.isspace` accepts in the ASCII range. */
  predicate IsSpace(c: char) {
    var k := c as int;
    k == 32 || 9 <= k <= 13 || 28 <= k <= 31
  }

  /** Every character of `s` is whitespace. */
  predicate AllBlank(s: string) {
    forall k :: 0 <= k < |s| ==> IsSpace(s[k])
  }

  /** `s.lstrip()`: drops leading whitespace; what remains is a suffix of
      `s` that does not start with whitespace. */
  function StripLeft(s: string): (r: string)
    ensures |r| <= |s| && r == s[|s| - |r|..]
    ensures r != [] ==> !IsSpace(r[0])
  {
    if s != [] && IsSpace(s[0]) then StripLeft(s[1..]) else s
  }

  /** What `StripLeft` drops is whitespace only. */
  lemma {:induction false} StripLeftBlank(s: string)
    ensures AllBlank(s[..|s| - |StripLeft(s)|])
    decreases |s|
  {
    if s != [] && IsSpace(s[0]) {
      var r := StripLeft(s[1..]);
      StripLeftBlank(s[1..]);
      var m := |s| - |r|;
      forall k | 0 <= k < m
        ensures IsSpace(s[..m][k])
      {
        if k > 0 {
          assert s[..m][k] == s[1..][..m - 1][k - 1];
        }
      }
    }
  }

  /** `s.rstrip()`: drops trailing whitespace; what remains is a prefix of
      `s` that does not end with whitespace. */
  function StripRight(s: string): (r: string)
    ensures |r| <= |s| && r == s[..|r|]
    ensures r != [] ==> !IsSpace(r[|r| - 1])
  {
    if s != [] && IsSpace(s[|s| - 1]) then StripRight(s[..|s| - 1]) else s
  }

  /** What `StripRight` drops is whitespace only. */
  lemma {:induction false} StripRightBlank(s: string)
    ensures AllBlank(s[|StripRight(s)|..])
    decreases |s|
  {
    if s != [] && IsSpace(s[|s| - 1]) {
      var init := s[..|s| - 1];
      var r := StripRight(init);
      StripRightBlank(init);
      assert s[|r|..] == init[|r|..] + [s[|s| - 1]];
    }
  }

  /** `s.strip()`: the slice of `s` that starts after its leading whitespace
      and stops before its trailing whitespace; it neither starts nor ends
      with whitespace. */
  function Strip(s: string): (r: string)
    ensures r != [] ==> !IsSpace(r[0]) && !IsSpace(r[|r| - 1])
    ensures |s| - |StripLeft(s)| + |r| <= |s|
    ensures r == s[|s| - |StripLeft(s)|..|s| - |StripLeft(s)| + |r|]
  {
    var left := StripLeft(s);
    var r := StripRight(left);
    SliceOfSuffix(s, |s| - |left|, |r|);
    r
  }

  /** The first `n` characters of the suffix from `i` are the slice from
      `i` of length `n`. */
  lemma SliceOfSuffix(s: string, i: nat, n: nat)
    requires i + n <= |s|
    ensures s[i..][..n] == s[i..i + n]
  {
  }

  /** What `Strip` removes is whitespace only. */
  lemma StripRemovesBlanks(s: string)
    ensures AllBlank(s[..|s| - |StripLeft(s)|])
    ensures AllBlank(s[|s| - |StripLeft(s)| + |Strip(s)|..])
  {
    var left := StripLeft(s);
    var r := Strip(s);
    var i := |s| - |left|;
    StripLeftBlank(s);
    StripRightBlank(left);
    assert s[i + |r|..] == left[|r|..];
  }

  /** `t` occurs in `s` starting exactly at position 0. */
  predicate StartsWith(s: string, t: string) {
    |t| <= |s| && s[..|t|] == t
  }

  /** Python's substring test `t in s`, as a left-to-right search. */
  predicate Contains(s: string, t: string)
    decreases |s|
  {
    StartsWith(s, t) || (s != [] && Contains(s[1..], t))
  }

  /** `t` occurs in `s` at position `i`. */
  predicate OccursAt(s: string, t: string, i: int) {
    0 <= i <= |s| - |t| && s[i..i + |t|] == t
  }

  /** The search agrees with the positional definition of an occurrence. */
  lemma {:induction false} ContainsIff(s: string, t: string)
    ensures Contains(s, t) <==> exists i :: OccursAt(s, t, i)
    decreases |s|
  {
    if StartsWith(s, t) {
      assert OccursAt(s, t, 0);
    }
    if s != [] {
      ContainsIff(s[1..], t);
      if Contains(s[1..], t) {
        var i :| OccursAt(s[1..], t, i);
        assert OccursAt(s, t, i + 1);
      }
      if i :| OccursAt(s, t, i) {
        if i > 0 {
          assert OccursAt(s[1..], t, i - 1);
        } else {
          assert StartsWith(s, t);
        }
      }
    } else {
      if i :| OccursAt(s, t, i) {
        assert StartsWith(s, t);
      }
    }
  }

  /** `t` is non-empty and neither starts nor ends with whitespace. */
  predicate Trimmed(t: string) {
    t != [] && !IsSpace(t[0]) && !IsSpace(t[|t| - 1])
  }

  /** A term with a character that `s` lacks does not occur in `s`. */
  lemma MissingChar(s: string, t: string, c: char)
    requires c in t && c !in s
    ensures !Contains(s, t)
  {
    ContainsIff(s, t);
  }

  /** Stripping cannot create or destroy an occurrence of a term that neither
      starts nor ends with whitespace. */
  lemma ContainsStrip(s: string, t: string)
    requires Trimmed(t)
    ensures Contains(Strip(s), t) <==> Contains(s, t)
  {
    var r := Strip(s);
    var i := |s| - |StripLeft(s)|;
    StripRemovesBlanks(s);
    ContainsCore(s, t, i, |r|);
    assert r == s[i..i + |r|];
  }

  /** A term with non-blank ends occurs in `s` exactly when it occurs in a
      slice of `s` outside which there is only whitespace. */
  lemma ContainsCore(s: string, t: string, i: nat, n: nat)
    requires i + n <= |s|
    requires t != [] && !IsSpace(t[0]) && !IsSpace(t[|t| - 1])
    requires AllBlank(s[..i]) && AllBlank(s[i + n..])
    ensures Contains(s[i..i + n], t) <==> Contains(s, t)
  {
    ContainsIff(s[i..i + n], t);
    ContainsIff(s, t);
    var core := s[i..i + n];
    if j :| OccursAt(core, t, j) {
      OccursInSlice(s, t, i, n, j);
    }
    if j :| OccursAt(s, t, j) {
      OccursInCore(s, t, i, n, j);
    }
  }

  /** An occurrence inside the slice `s[i..i + n]` is an occurrence in `s`. */
  lemma OccursInSlice(s: string, t: string, i: nat, n: nat, j: int)
    requires i + n <= |s| && OccursAt(s[i..i + n], t, j)
    ensures OccursAt(s, t, i + j)
  {
    var core := s[i..i + n];
    forall k | 0 <= k < |t|
      ensures s[i + j + k] == t[k]
    {
      assert core[j..j + |t|][k] == t[k];
    }
    assert s[i + j..i + j + |t|] == t;
  }

  /** An occurrence in `s` of a term with non-blank ends lies inside the
      slice `s[i..i + n]` when everything outside that slice is blank. */
  lemma OccursInCore(s: string, t: string, i: nat, n: nat, j: int)
    requires i + n <= |s| && OccursAt(s, t, j)
    requires t != [] && !IsSpace(t[0]) && !IsSpace(t[|t| - 1])
    requires AllBlank(s[..i]) && AllBlank(s[i + n..])
    ensures OccursAt(s[i..i + n], t, j - i)
  {
    assert s[j] == t[0] by { assert s[j..j + |t|][0] == t[0]; }
    assert s[j + |t| - 1] == t[|t| - 1] by { assert s[j..j + |t|][|t| - 1] == t[|t| - 1]; }
    var core := s[i..i + n];
    forall k | 0 <= k < |t|
      ensures core[j - i + k] == t[k]
    {
      assert s[j..j + |t|][k] == t[k];
    }
    assert core[j - i..j - i + |t|] == t;
  }
}
