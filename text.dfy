/** The parts of Python's `str` that the application relies on: `isspace`,
    `strip`, `split` on one separator character, `join`, `lower`, `rfind`,
    and the order in which the database compares names. */
module Text {

  /** `str.isspace()` for one character: the ASCII controls TAB..CR and
      FS..US, SPACE, and the Unicode white-space code points. */
  predicate IsSpace(c: char) {
    var n := c as int;
    || (9 <= n <= 13) || (28 <= n <= 32) || n == 0x85 || n == 0xA0
    || n == 0x1680 || (0x2000 <= n <= 0x200A) || n == 0x2028 || n == 0x2029
    || n == 0x202F || n == 0x205F || n == 0x3000
  }

  /** Which characters a trim removes: those of `str.strip()`, or the
      narrower set `int()` skips around a literal, which leaves out the ASCII
      information separators FS, GS, RS and US (28..31). */
  datatype SpaceKind = StrSpace | IntSpace

  predicate IsSpaceOf(kind: SpaceKind, c: char) {
    IsSpace(c) && (kind == IntSpace ==> !(28 <= c as int <= 31))
  }

  /** The longest suffix of `s` that does not start with white space of the
      given kind; `s.lstrip()` for `StrSpace`. */
  function TrimStart(s: string, kind: SpaceKind): (r: string)
    ensures |r| <= |s| && r == s[|s| - |r|..]
    ensures r == [] || !IsSpaceOf(kind, r[0])
    ensures forall i :: 0 <= i < |s| - |r| ==> IsSpaceOf(kind, s[i])
  {
    if s != [] && IsSpaceOf(kind, s[0]) then TrimStart(s[1..], kind) else s
  }

  /** The longest prefix of `s` that does not end with white space of the
      given kind; `s.rstrip()` for `StrSpace`. */
  function TrimEnd(s: string, kind: SpaceKind): (r: string)
    ensures |r| <= |s| && r == s[..|r|]
    ensures r == [] || !IsSpaceOf(kind, r[|r| - 1])
    ensures forall i :: |r| <= i < |s| ==> IsSpaceOf(kind, s[i])
  {
    if s != [] && IsSpaceOf(kind, s[|s| - 1]) then TrimEnd(s[..|s| - 1], kind) else s
  }

  /** Both trims: what remains of `s` once white space of the given kind is
      removed at both ends. */
  function StripWith(s: string, kind: SpaceKind): string
  {
    TrimEnd(TrimStart(s, kind), kind)
  }

  /** `s.strip()`. */
  function Strip(s: string): string
  {
    StripWith(s, StrSpace)
  }

  /** A string that neither starts nor ends with white space of the given kind. */
  predicate IsStrippedWith(s: string, kind: SpaceKind) {
    s == [] || (!IsSpaceOf(kind, s[0]) && !IsSpaceOf(kind, s[|s| - 1]))
  }

  /** A string that neither starts nor ends with white space. */
  predicate IsStripped(s: string) {
    IsStrippedWith(s, StrSpace)
  }

  /** Stripping removes white space at both ends, keeps what is between, and
      leaves a string alone that has none at its ends. */
  lemma StripProperties(s: string, kind: SpaceKind)
    ensures IsStrippedWith(StripWith(s, kind), kind)
    ensures IsStrippedWith(s, kind) ==> StripWith(s, kind) == s
  {
    var t := TrimStart(s, kind);
    var r := TrimEnd(t, kind);
    if r != [] {
      assert r[0] == t[0];
    }
    if IsStrippedWith(s, kind) && s != [] {
      assert t == s;
    }
  }

  /** White space of a kind added around a string stripped of it is exactly
      what stripping removes again. */
  lemma StripPadded(left: string, x: string, right: string, kind: SpaceKind)
    requires forall i :: 0 <= i < |left| ==> IsSpaceOf(kind, left[i])
    requires forall i :: 0 <= i < |right| ==> IsSpaceOf(kind, right[i])
    requires IsStrippedWith(x, kind)
    ensures StripWith(left + x + right, kind) == x
  {
    if x != [] {
      assert TrimStart(left + x + right, kind) == x + right by {
        assert (x + right)[0] == x[0];
        assert left + x + right == left + (x + right);
        TrimStartPadded(left, x + right, kind);
      }
      TrimEndPadded(x, right, kind);
    }
  }

  lemma {:induction false} TrimStartPadded(left: string, rest: string, kind: SpaceKind)
    requires forall i :: 0 <= i < |left| ==> IsSpaceOf(kind, left[i])
    requires rest == [] || !IsSpaceOf(kind, rest[0])
    ensures TrimStart(left + rest, kind) == rest
    decreases |left|
  {
    if left == [] {
      assert left + rest == rest;
    } else {
      assert (left + rest)[1..] == left[1..] + rest;
      assert IsSpaceOf(kind, (left + rest)[0]);
      TrimStartPadded(left[1..], rest, kind);
    }
  }

  lemma {:induction false} TrimEndPadded(rest: string, right: string, kind: SpaceKind)
    requires forall i :: 0 <= i < |right| ==> IsSpaceOf(kind, right[i])
    requires rest == [] || !IsSpaceOf(kind, rest[|rest| - 1])
    ensures TrimEnd(rest + right, kind) == rest
    decreases |right|
  {
    if right == [] {
      assert rest + right == rest;
    } else {
      var init := right[..|right| - 1];
      TrimEndPadded(rest, init, kind);
      assert (rest + right)[..|rest + right| - 1] == rest + init;
    }
  }

  /** `s.split(sep)` for a one-character separator: the maximal pieces between
      separators, empty pieces included, so there is always at least one. */
  function Split(s: string, sep: char): (parts: seq<string>)
    ensures |parts| >= 1
    ensures forall i :: 0 <= i < |parts| ==> sep !in parts[i]
    ensures Join(parts, sep) == s
  {
    if s == [] then [[]]
    else
      var rest := Split(s[1..], sep);
      if s[0] == sep then
        assert [sep] + s[1..] == s;
        [[]] + rest
      else
        assert [s[0]] + s[1..] == s;
        [[s[0]] + rest[0]] + rest[1..]
  }

  /** `sep.join(parts)`. */
  function Join(parts: seq<string>, sep: char): string
  {
    if |parts| == 0 then []
    else if |parts| == 1 then parts[0]
    else parts[0] + [sep] + Join(parts[1..], sep)
  }

  /** Splitting text that starts with a separator-free piece. */
  lemma {:induction false} SplitAppend(a: string, b: string, sep: char)
    requires sep !in a
    ensures Split(a + b, sep) == [a + Split(b, sep)[0]] + Split(b, sep)[1..]
    decreases |a|
  {
    if a == [] {
      assert a + b == b;
      assert a + Split(b, sep)[0] == Split(b, sep)[0];
      assert Split(b, sep) == [Split(b, sep)[0]] + Split(b, sep)[1..];
    } else {
      var sb := Split(b, sep);
      var rest := Split(a[1..] + b, sep);
      assert rest == [a[1..] + sb[0]] + sb[1..] by {
        SplitAppend(a[1..], b, sep);
      }
      assert Split(a + b, sep) == [[a[0]] + rest[0]] + rest[1..] by {
        assert (a + b)[0] == a[0] != sep;
        assert (a + b)[1..] == a[1..] + b;
      }
      assert [a[0]] + (a[1..] + sb[0]) == a + sb[0];
    }
  }

  /** Splitting a joined list of separator-free pieces gives the pieces back. */
  lemma {:induction false} SplitJoin(parts: seq<string>, sep: char)
    requires |parts| >= 1
    requires forall i :: 0 <= i < |parts| ==> sep !in parts[i]
    ensures Split(Join(parts, sep), sep) == parts
    decreases |parts|
  {
    if |parts| == 1 {
      assert Split(parts[0], sep) == [parts[0]] by {
        SplitAppend(parts[0], [], sep);
        assert parts[0] + [] == parts[0];
      }
    } else {
      var tail := Join(parts[1..], sep);
      var rest := [sep] + tail;
      var later := Split(rest, sep);
      assert later == [[]] + parts[1..] by {
        SplitJoin(parts[1..], sep);
        SplitLeadingSep(tail, sep);
      }
      assert Join(parts, sep) == parts[0] + rest;
      assert Split(parts[0] + rest, sep) == [parts[0]] + later[1..] by {
        SplitAppend(parts[0], rest, sep);
        assert parts[0] + later[0] == parts[0];
      }
      assert parts == [parts[0]] + parts[1..];
    }
  }

  /** Joining two lists of pieces joins their joins with one separator. */
  lemma {:induction false} JoinAppend(p: seq<string>, q: seq<string>, sep: char)
    requires |p| >= 1 && |q| >= 1
    ensures Join(p + q, sep) == Join(p, sep) + [sep] + Join(q, sep)
    decreases |p|
  {
    assert (p + q)[0] == p[0];
    if |p| == 1 {
      assert (p + q)[1..] == q;
    } else {
      assert (p + q)[1..] == p[1..] + q;
      JoinAppend(p[1..], q, sep);
    }
  }

  /** A leading separator splits off an empty piece. */
  lemma SplitLeadingSep(tail: string, sep: char)
    ensures Split([sep] + tail, sep) == [[]] + Split(tail, sep)
  {
    assert ([sep] + tail)[1..] == tail;
  }

  /** `c.lower()` on the ASCII capitals; other characters are kept. */
  function LowerChar(c: char): char {
    if 'A' <= c <= 'Z' then (c as int + 32) as char else c
  }

  /** `s.lower()`, character by character. */
  function Lower(s: string): (r: string)
    ensures |r| == |s|
    ensures forall i :: 0 <= i < |s| ==> r[i] == LowerChar(s[i])
  {
    seq(|s|, i requires 0 <= i < |s| => LowerChar(s[i]))
  }

  /** Lower-casing twice is lower-casing once, it has no upper-case letter
      left, and it maps no character to '@' or white space that was not one. */
  lemma LowerProperties(s: string)
    ensures Lower(Lower(s)) == Lower(s)
    ensures forall i :: 0 <= i < |s| ==> !('A' <= Lower(s)[i] <= 'Z')
    ensures ('@' in Lower(s)) == ('@' in s)
    ensures forall i :: 0 <= i < |s| ==> IsSpace(Lower(s)[i]) == IsSpace(s[i])
  {
    var l := Lower(s);
    if '@' in l {
      var i :| 0 <= i < |l| && l[i] == '@';
      assert s[i] == '@';
    }
    if '@' in s {
      var i :| 0 <= i < |s| && s[i] == '@';
      assert l[i] == '@';
    }
  }

  /** `s.rfind(c)`: the index of the last occurrence of `c`, or -1. */
  function RFind(s: string, c: char): (k: int)
    ensures -1 <= k < |s|
    ensures k >= 0 ==> s[k] == c
    ensures forall j :: k < j < |s| ==> s[j] != c
  {
    if s == [] then -1
    else if s[|s| - 1] == c then |s| - 1
    else RFind(s[..|s| - 1], c)
  }

  /** `rfind` returns the last index holding the character, and only that. */
  lemma RFindIs(s: string, c: char, k: int)
    requires -1 <= k < |s|
    requires k >= 0 ==> s[k] == c
    requires forall j :: k < j < |s| ==> s[j] != c
    ensures RFind(s, c) == k
  {
  }

  /** The same, with the rest of the text after `k` given as a slice. */
  lemma RFindLast(s: string, c: char, k: int)
    requires -1 <= k < |s|
    requires k >= 0 ==> s[k] == c
    requires c !in s[k + 1..]
    ensures RFind(s, c) == k
  {
    NotInSuffix(s, c, k + 1);
    RFindIs(s, c, k);
  }

  lemma NotInSuffix(s: string, c: char, i: nat)
    requires i <= |s|
    requires c !in s[i..]
    ensures forall j :: i <= j < |s| ==> s[j] != c
  {
    forall j | i <= j < |s|
      ensures s[j] != c
    {
      assert s[j] == s[i..][j - i];
    }
  }

  /** Text without `c` appended after `a` does not move the last `c`. */
  lemma RFindAppend(a: string, b: string, c: char)
    requires c !in b
    ensures RFind(a + b, c) == RFind(a, c)
  {
    var k := RFind(a, c);
    assert (a + b)[k + 1..] == a[k + 1..] + b;
    assert c !in a[k + 1..];
    if k >= 0 {
      assert (a + b)[k] == a[k];
    }
    RFindLast(a + b, c, k);
  }

  /** The order in which the database sorts names: code point by code point,
      a proper prefix first. */
  predicate NameLe(a: string, b: string) {
    a == [] || (b != [] && (a[0] < b[0] || (a[0] == b[0] && NameLe(a[1..], b[1..]))))
  }

  /** Any two names are comparable. */
  lemma {:induction false} NameLeTotal(a: string, b: string)
    ensures NameLe(a, b) || NameLe(b, a)
    decreases |a|
  {
    if a != [] && b != [] && a[0] == b[0] {
      NameLeTotal(a[1..], b[1..]);
    }
  }

  /** The order on names is transitive. */
  lemma {:induction false} NameLeTransitive(a: string, b: string, c: string)
    requires NameLe(a, b) && NameLe(b, c)
    ensures NameLe(a, c)
    decreases |a|
  {
    if a != [] && a[0] == b[0] && b[0] == c[0] {
      NameLeTransitive(a[1..], b[1..], c[1..]);
    }
  }
}
