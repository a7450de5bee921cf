/** The few string functions of Go's library the source relies on, with the facts about them the proofs need. */
module Strings {
  /** White space as `unicode.IsSpace` has it. */
  predicate IsSpace(c: char) {
    var n := c as int;
    n == 0x20 || 0x09 <= n <= 0x0D || n == 0x85 || n == 0xA0 || n == 0x1680
    || 0x2000 <= n <= 0x200A || n == 0x2028 || n == 0x2029 || n == 0x202F || n == 0x205F || n == 0x3000
  }

  function TrimLeft(s: string): (r: string)
    ensures r == [] || !IsSpace(r[0])
    ensures |r| <= |s|
  {
    if s != [] && IsSpace(s[0]) then TrimLeft(s[1..]) else s
  }

  function TrimRight(s: string): (r: string)
    ensures r == [] || !IsSpace(r[|r| - 1])
    ensures r <= s
  {
    if s != [] && IsSpace(s[|s| - 1]) then TrimRight(s[..|s| - 1]) else s
  }

  lemma {:induction false} TrimLeftIsSuffix(s: string)
    ensures TrimLeft(s) == s[|s| - |TrimLeft(s)|..]
  {
    if s != [] && IsSpace(s[0]) { TrimLeftIsSuffix(s[1..]); }
  }

  /** `strings.TrimSpace` */
  function Trim(s: string): string { TrimRight(TrimLeft(s)) }

  /** Neither end is white space: what trimming leaves, and what it leaves alone. */
  predicate Trimmed(s: string) {
    s == [] || (!IsSpace(s[0]) && !IsSpace(s[|s| - 1]))
  }

  lemma TrimIsTrimmed(s: string)
    ensures Trimmed(Trim(s))
  {
    var l, r := TrimLeft(s), Trim(s);
    if r != [] { assert r[0] == l[0]; }
  }

  lemma TrimKeepsTrimmed(s: string)
    requires Trimmed(s)
    ensures Trim(s) == s
  {
  }

  predicate AllSpace(s: string) {
    forall k :: 0 <= k < |s| ==> IsSpace(s[k])
  }

  /** Trimming cuts white space off the two ends, and all of it. */
  lemma TrimCutsSpace(s: string) returns (a: string, b: string)
    ensures s == a + Trim(s) + b && AllSpace(a) && AllSpace(b)
    ensures Trimmed(Trim(s))
  {
    TrimIsTrimmed(s);
    a := TrimLeftCuts(s);
    b := TrimRightCuts(TrimLeft(s));
  }

  lemma {:induction false} TrimLeftCuts(s: string) returns (a: string)
    ensures s == a + TrimLeft(s) && AllSpace(a)
  {
    a := [];
    if s != [] && IsSpace(s[0]) {
      var c := TrimLeftCuts(s[1..]);
      a := [s[0]] + c;
    }
  }

  lemma {:induction false} TrimRightCuts(s: string) returns (b: string)
    ensures s == TrimRight(s) + b && AllSpace(b)
  {
    b := [];
    if s != [] && IsSpace(s[|s| - 1]) {
      var c := TrimRightCuts(s[..|s| - 1]);
      b := c + [s[|s| - 1]];
    }
  }

  // ASCII letters only; the identifiers and keys handled here are ASCII.
  function LowerChar(c: char): char {
    if 'A' <= c <= 'Z' then ((c as int) + 32) as char else c
  }

  function UpperChar(c: char): char {
    if 'a' <= c <= 'z' then ((c as int) - 32) as char else c
  }

  /**
   The two move a letter to its other case, at the same place in the alphabet, and leave any other
   character alone.
   */
  lemma CasesMatch(c: char)
    ensures if 'A' <= c <= 'Z'
            then LowerChar(c) as int - 'a' as int == c as int - 'A' as int && UpperChar(LowerChar(c)) == c
            else LowerChar(c) == c
    ensures if 'a' <= c <= 'z'
            then UpperChar(c) as int - 'A' as int == c as int - 'a' as int && LowerChar(UpperChar(c)) == c
            else UpperChar(c) == c
  {
  }

  function Lower(s: string): (r: string)
    ensures |r| == |s|
    ensures forall i :: 0 <= i < |s| ==> r[i] == LowerChar(s[i])
  {
    if s == [] then [] else [LowerChar(s[0])] + Lower(s[1..])
  }

  function Upper(s: string): (r: string)
    ensures |r| == |s|
    ensures forall i :: 0 <= i < |s| ==> r[i] == UpperChar(s[i])
  {
    if s == [] then [] else [UpperChar(s[0])] + Upper(s[1..])
  }

  /** `utils.NormalizeKey` */
  function NormalizeKey(s: string): string { Lower(Trim(s)) }

  lemma NormalizeKeyIdempotent(s: string)
    ensures Trimmed(NormalizeKey(s))
    ensures NormalizeKey(NormalizeKey(s)) == NormalizeKey(s)
    ensures Trim(NormalizeKey(s)) == NormalizeKey(s)
  {
    TrimIsTrimmed(s);
    var n := NormalizeKey(s);
    assert forall c :: IsSpace(LowerChar(c)) <==> IsSpace(c);
    TrimKeepsTrimmed(n);
    assert Lower(n) == n;
  }

  /** `strings.TrimPrefix` */
  function TrimPrefix(s: string, p: string): string { if p <= s then s[|p|..] else s }

  /** `strings.Contains` */
  predicate Contains(s: string, sub: string) {
    sub <= s || (s != [] && Contains(s[1..], sub))
  }

  /** The word stands in the text at this position. */
  predicate Occurs(s: string, word: string, i: int) { 0 <= i <= |s| - |word| && s[i..i + |word|] == word }

  lemma {:induction false} ContainsIff(s: string, word: string)
    ensures Contains(s, word) <==> exists i :: Occurs(s, word, i)
  {
    if word <= s {
      assert Occurs(s, word, 0);
    } else if s != [] {
      ContainsIff(s[1..], word);
      if i :| Occurs(s[1..], word, i) { OccursLater(s, word, i + 1); }
      if i :| Occurs(s, word, i) {
        assert s[..|word|] != word;
        OccursLater(s, word, i);
      }
    }
  }

  lemma OccursLater(s: string, word: string, i: int)
    requires s != [] && i > 0
    ensures Occurs(s, word, i) <==> Occurs(s[1..], word, i - 1)
  {
    if i <= |s| - |word| { assert s[i..i + |word|] == s[1..][i - 1..i - 1 + |word|]; }
  }

  // ---------- Splitting and joining on one separator ----------

  /** `strings.Split` */
  function Split(s: string, sep: char): (parts: seq<string>)
    ensures parts != []
    ensures forall k :: 0 <= k < |parts| ==> sep !in parts[k]
  {
    if s == [] then [[]] else Attach(s[0], Split(s[1..], sep), sep)
  }

  /** One more character in front of text already split. */
  function Attach(c: char, parts: seq<string>, sep: char): (r: seq<string>)
    requires parts != []
    ensures r != []
  {
    if c == sep then [[]] + parts else [[c] + parts[0]] + parts[1..]
  }

  lemma AttachToFront(c: char, front: seq<string>, rest: seq<string>, sep: char)
    requires front != []
    ensures Attach(c, front + rest, sep) == Attach(c, front, sep) + rest
  {
    assert (front + rest)[1..] == front[1..] + rest;
  }

  /** `strings.Join` */
  function Join(parts: seq<string>, sep: char): string {
    if parts == [] then []
    else if |parts| == 1 then parts[0]
    else parts[0] + [sep] + Join(parts[1..], sep)
  }

  lemma {:induction false} JoinAppend(p: seq<string>, q: seq<string>, sep: char)
    requires p != [] && q != []
    ensures Join(p + q, sep) == Join(p, sep) + [sep] + Join(q, sep)
  {
    assert (p + q)[1..] == p[1..] + q;
    if |p| > 1 { JoinAppend(p[1..], q, sep); }
  }

  lemma {:induction false} JoinSplit(s: string, sep: char)
    ensures Join(Split(s, sep), sep) == s
  {
    if s != [] {
      JoinSplit(s[1..], sep);
      JoinAttach(s[0], Split(s[1..], sep), sep);
      assert [s[0]] + s[1..] == s;
    }
  }

  lemma JoinAttach(c: char, parts: seq<string>, sep: char)
    requires parts != []
    ensures Join(Attach(c, parts, sep), sep) == [c] + Join(parts, sep)
  {
    var more := Attach(c, parts, sep);
    if c == sep {
      assert more[1..] == parts && more[0] == [];
      assert [] + [sep] + Join(parts, sep) == [c] + Join(parts, sep);
    } else {
      assert more[0] == [c] + parts[0] && more[1..] == parts[1..];
      if |parts| > 1 { InFrontOf([c], parts[0], [sep], Join(parts[1..], sep)); }
    }
  }

  lemma InFrontOf(a: string, b: string, c: string, d: string)
    ensures (a + b) + c + d == a + (b + c + d)
  {
  }

  lemma {:induction false} SplitJoin(parts: seq<string>, sep: char)
    requires parts != [] && forall k :: 0 <= k < |parts| ==> sep !in parts[k]
    ensures Split(Join(parts, sep), sep) == parts
  {
    if |parts| == 1 {
      SplitWord(parts[0], sep);
    } else {
      SplitJoin(parts[1..], sep);
      SplitWord(parts[0], sep);
      SplitAtSeparator(parts[0], Join(parts[1..], sep), sep);
      assert parts[0] + [sep] + Join(parts[1..], sep) == Join(parts, sep);
    }
  }

  lemma {:induction false} SplitWord(w: string, sep: char)
    requires sep !in w
    ensures Split(w, sep) == [w]
  {
    if w != [] { SplitWord(w[1..], sep); assert [w[0]] + w[1..] == w; }
  }

  lemma {:induction false} SplitAtSeparator(a: string, b: string, sep: char)
    ensures Split(a + [sep] + b, sep) == Split(a, sep) + Split(b, sep)
  {
    var s := a + [sep] + b;
    if a == [] {
      assert s[1..] == b;
    } else {
      SplitAtSeparator(a[1..], b, sep);
      assert s[1..] == a[1..] + [sep] + b && s[0] == a[0];
      AttachToFront(s[0], Split(a[1..], sep), Split(b, sep), sep);
    }
  }
}
