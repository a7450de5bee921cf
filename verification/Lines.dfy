/** The white-space clean-up that free text goes through once its markup has been removed. */
module Lines {
  import opened Strings

  // ---------- Words ----------

  /** `strings.Fields` */
  function Fields(s: string): (words: seq<string>)
    ensures OpensWord(s) ==> words != []
    ensures forall k :: 0 <= k < |words| ==> words[k] != []
  {
    if s == [] then []
    else if IsSpace(s[0]) then Fields(s[1..])
    else if OpensWord(s[1..]) then
      var rest := Fields(s[1..]);
      [[s[0]] + rest[0]] + rest[1..]
    else [[s[0]]] + Fields(s[1..])
  }

  predicate OpensWord(s: string) { s != [] && !IsSpace(s[0]) }

  /** A line with its words one space apart. */
  function Clean(line: string): string { Join(Fields(line), ' ') }

  // ---------- Line endings ----------

  function ReplaceCrLf(s: string): string {
    if s == [] then []
    else if |s| >= 2 && s[0] == '\r' && s[1] == '\n' then ['\n'] + ReplaceCrLf(s[2..])
    else [s[0]] + ReplaceCrLf(s[1..])
  }

  function ReplaceCr(s: string): (r: string)
    ensures |r| == |s| && forall i :: 0 <= i < |s| ==> r[i] == if s[i] == '\r' then '\n' else s[i]
  {
    if s == [] then [] else [if s[0] == '\r' then '\n' else s[0]] + ReplaceCr(s[1..])
  }

  function UnixLines(s: string): string { ReplaceCr(ReplaceCrLf(s)) }

  // ---------- What the result is: one scan, character by character ----------

  /** Before the first word, inside a word, or past one with so many line breaks since, counted up to two. */
  datatype Place = Start | Word | Gap(breaks: nat)

  function Next(at: Place, c: char): Place {
    if !IsSpace(c) then Word
    else if at.Start? then Start
    else
      var n := (if at.Gap? then at.breaks else 0) + (if c == '\n' then 1 else 0);
      Gap(if n > 2 then 2 else n)
  }

  /** What stands in front of the next word. */
  function Lead(at: Place): string {
    if !at.Gap? then "" else if at.breaks == 0 then " " else if at.breaks == 1 then "\n" else "\n\n"
  }

  /** Words on one line are one space apart, words on neighbouring lines one break, and all others one blank line. */
  function Flow(s: string, at: Place): string {
    if s == [] then []
    else if IsSpace(s[0]) then Flow(s[1..], Next(at, s[0]))
    else Lead(at) + ([s[0]] + Flow(s[1..], Word))
  }

  function Normal(s: string): string { Flow(UnixLines(s), Start) }

  // ---------- Exactly the tidy texts are left alone ----------

  predicate EndsInWord(t: string) { t == [] || !IsSpace(t[|t| - 1]) }

  /** White space inside: one plain space between two words, or one or two line breaks. */
  predicate SpacedAt(t: string, i: nat) requires i < |t| {
    IsSpace(t[i]) ==>
      || (t[i] == ' ' && (i == 0 || !IsSpace(t[i - 1])))
      || (t[i] == '\n' && (i == 0 || !IsSpace(t[i - 1]) || (t[i - 1] == '\n' && (i == 1 || !IsSpace(t[i - 2])))))
  }

  predicate Spaced(t: string) { forall i :: 0 <= i < |t| ==> SpacedAt(t, i) }

  /** No white space at the ends, no two adjacent spaces, no two adjacent blank lines. */
  predicate Tidy(t: string) { Trimmed(t) && Spaced(t) }

  lemma {:induction false} FlowIsSpaced(s: string, at: Place)
    ensures var r := Flow(s, at);
            Spaced(r) && EndsInWord(r) && (at.Start? && r != [] ==> !IsSpace(r[0]))
  {
    if s != [] {
      var rest := Flow(s[1..], Next(at, s[0]));
      FlowIsSpaced(s[1..], Next(at, s[0]));
      if !IsSpace(s[0]) {
        WordInFront(s[0], rest);
        LeadInFront(Lead(at), [s[0]] + rest);
      }
    }
  }

  lemma WordInFront(c: char, rest: string)
    requires !IsSpace(c) && Spaced(rest) && EndsInWord(rest)
    ensures Spaced([c] + rest) && EndsInWord([c] + rest)
  {
    var t := [c] + rest;
    forall i | 0 <= i < |t| ensures SpacedAt(t, i) {
      if i > 0 { assert SpacedAt(rest, i - 1); }
    }
  }

  lemma LeadInFront(lead: string, word: string)
    requires lead in ["", " ", "\n", "\n\n"] && OpensWord(word) && Spaced(word) && EndsInWord(word)
    ensures Spaced(lead + word) && EndsInWord(lead + word)
  {
    var t := lead + word;
    forall i | 0 <= i < |t| ensures SpacedAt(t, i) {
      if i >= |lead| { assert SpacedAt(word, i - |lead|); }
    }
  }

  /** Spaced text starts with no, one or two characters of white space, and they are what the scan puts there. */
  lemma WhiteSpaceInFront(t: string) returns (k: nat)
    requires t != [] && Spaced(t) && EndsInWord(t)
    ensures k < |t| && !IsSpace(t[k]) && Flow(t, Word) == t[..k + 1] + Flow(t[k + 1..], Word)
    ensures Spaced(t[k + 1..]) && EndsInWord(t[k + 1..])
  {
    assert SpacedAt(t, 0);
    if !IsSpace(t[0]) {
      k := 0;
      assert t[..1] == "" + [t[0]];
    } else {
      assert SpacedAt(t, 1);
      var at := Next(Word, t[0]);
      assert t[..1] == Lead(at);
      if !IsSpace(t[1]) {
        k := 1;
        GapThenWord(t[1..], at);
        assert t[1..][1..] == t[2..] && t[..2] == t[..1] + [t[1]];
      } else {
        assert SpacedAt(t, 2);
        k := 2;
        assert Next(at, t[1]) == Gap(2) && t[1..][1..] == t[2..] && t[2..][1..] == t[3..];
        GapThenWord(t[2..], Gap(2));
        assert t[..3] == "\n\n" + [t[2]];
      }
    }
    SpacedSuffix(t, k);
  }

  lemma GapThenWord(t: string, at: Place)
    requires OpensWord(t)
    ensures Flow(t, at) == Lead(at) + [t[0]] + Flow(t[1..], Word)
  {
    assert Lead(at) + ([t[0]] + Flow(t[1..], Word)) == Lead(at) + [t[0]] + Flow(t[1..], Word);
  }

  lemma SpacedSuffix(t: string, k: nat)
    requires k < |t| && !IsSpace(t[k]) && Spaced(t)
    ensures Spaced(t[k + 1..])
  {
    var rest := t[k + 1..];
    forall i | 0 <= i < |rest| ensures SpacedAt(rest, i) { assert SpacedAt(t, i + k + 1); }
  }

  lemma {:induction false} FlowKeepsSpaced(t: string)
    requires Spaced(t) && EndsInWord(t)
    ensures Flow(t, Word) == t
    decreases |t|
  {
    if t != [] {
      var k := WhiteSpaceInFront(t);
      FlowKeepsSpaced(t[k + 1..]);
    }
  }

  lemma {:induction false} UnixLinesKeeps(t: string)
    requires '\r' !in t
    ensures UnixLines(t) == t
  {
    NoCrLf(t);
  }

  lemma {:induction false} NoCrLf(t: string)
    requires '\r' !in t
    ensures ReplaceCrLf(t) == t
  {
    if t != [] { NoCrLf(t[1..]); }
  }

  lemma NormalIsTidy(s: string)
    ensures Tidy(Normal(s))
  {
    FlowIsSpaced(UnixLines(s), Start);
  }

  /** The clean-up leaves exactly the tidy texts alone; every result is one, so cleaning twice is cleaning once. */
  lemma UnchangedIffTidy(t: string)
    ensures Normal(t) == t <==> Tidy(t)
    ensures Normal(Normal(t)) == Normal(t)
  {
    NormalIsTidy(t);
    TidyIsKept(Normal(t));
    if Tidy(t) { TidyIsKept(t); }
  }

  lemma TidyIsKept(t: string)
    requires Tidy(t)
    ensures Normal(t) == t
  {
    forall i | 0 <= i < |t| ensures t[i] != '\r' { assert SpacedAt(t, i) && IsSpace('\r'); }
    UnixLinesKeeps(t);
    FlowKeepsSpaced(t);
  }

  // ---------- The words are kept, in order ----------

  lemma {:induction false} FlowKeepsWords(s: string, at: Place)
    ensures Fields(Flow(s, at)) == Fields(s)
    ensures at.Word? ==> (OpensWord(Flow(s, at)) <==> OpensWord(s))
  {
    if s != [] {
      var rest := Flow(s[1..], Next(at, s[0]));
      FlowKeepsWords(s[1..], Next(at, s[0]));
      FlowGapOpens(s[1..]);
      if !IsSpace(s[0]) {
        assert ([s[0]] + rest)[1..] == rest;
        LeadAddsNoWord(Lead(at), [s[0]] + rest);
      }
    }
  }

  lemma {:induction false} FlowGapOpens(s: string)
    ensures forall at: Place :: at.Gap? ==> !OpensWord(Flow(s, at))
  {
    if s != [] {
      FlowGapOpens(s[1..]);
      forall at: Place | at.Gap? ensures !OpensWord(Flow(s, at)) {
        if IsSpace(s[0]) { assert Flow(s, at) == Flow(s[1..], Next(at, s[0])); }
      }
    }
  }

  lemma LeadAddsNoWord(lead: string, s: string)
    requires lead in ["", " ", "\n", "\n\n"]
    ensures Fields(lead + s) == Fields(s)
  {
    if lead == "" {
      assert lead + s == s;
    } else if |lead| == 1 {
      BlankAddsNoWord(lead[0], s);
      assert lead + s == [lead[0]] + s;
    } else {
      BlankAddsNoWord('\n', s);
      BlankAddsNoWord('\n', ['\n'] + s);
      assert lead + s == ['\n'] + (['\n'] + s);
    }
  }

  lemma BlankAddsNoWord(c: char, s: string)
    requires IsSpace(c)
    ensures Fields([c] + s) == Fields(s)
  {
    assert ([c] + s)[1..] == s;
  }

  lemma {:induction false} UnixLinesKeepsWords(s: string)
    ensures Fields(UnixLines(s)) == Fields(s)
    ensures OpensWord(UnixLines(s)) <==> OpensWord(s)
  {
    if s != [] {
      if |s| >= 2 && s[0] == '\r' && s[1] == '\n' {
        UnixLinesKeepsWords(s[2..]);
        assert UnixLines(s)[1..] == UnixLines(s[2..]);
        assert s[1..][1..] == s[2..];
      } else {
        UnixLinesKeepsWords(s[1..]);
        assert UnixLines(s)[1..] == UnixLines(s[1..]);
      }
    }
  }

  /** Nothing but white space is lost or moved. */
  lemma WordsAreKept(s: string)
    ensures Fields(Normal(s)) == Fields(s)
  {
    UnixLinesKeepsWords(s);
    FlowKeepsWords(UnixLines(s), Start);
  }

  // ---------- Line endings are breaks, all three alike ----------

  lemma {:induction false} CrLfAcross(a: string, b: string)
    requires !(a != "" && a[|a| - 1] == '\r' && b != "" && b[0] == '\n')
    ensures ReplaceCrLf(a + b) == ReplaceCrLf(a) + ReplaceCrLf(b)
    decreases |a|
  {
    if a == "" {
      assert a + b == b;
    } else if |a| >= 2 && a[0] == '\r' && a[1] == '\n' {
      assert (a + b)[2..] == a[2..] + b;
      CrLfAcross(a[2..], b);
    } else {
      assert (a + b)[1..] == a[1..] + b;
      CrLfAcross(a[1..], b);
    }
  }

  lemma CrAcross(a: string, b: string)
    ensures ReplaceCr(a + b) == ReplaceCr(a) + ReplaceCr(b)
  {
  }

  /** Two texts that do not split a pair are converted each on its own. */
  lemma UnixAcross(a: string, b: string)
    requires !(a != "" && a[|a| - 1] == '\r' && b != "" && b[0] == '\n')
    ensures UnixLines(a + b) == UnixLines(a) + UnixLines(b)
  {
    CrLfAcross(a, b);
    CrAcross(ReplaceCrLf(a), ReplaceCrLf(b));
  }

  lemma EndingIsBreak()
    ensures UnixLines("\r\n") == UnixLines("\r") == UnixLines("\n") == "\n"
  {
    assert ReplaceCrLf("\r\n") == "\n" + ReplaceCrLf("\r\n"[2..]);
    assert ReplaceCrLf("\r") == "\r" + ReplaceCrLf("\r"[1..]);
    assert ReplaceCrLf("\n") == "\n" + ReplaceCrLf("\n"[1..]);
  }

  /** The pair is one break, whatever stands before and after it. */
  lemma PairIsOneBreak(a: string, b: string)
    ensures UnixLines(a + "\r\n" + b) == UnixLines(a) + "\n" + UnixLines(b)
  {
    EndingIsBreak();
    UnixAcross("\r\n", b);
    UnixAcross(a, "\r\n" + b);
    assert a + "\r\n" + b == a + ("\r\n" + b);
    Associate(UnixLines(a), "\n", UnixLines(b));
  }

  /** A carriage return that is no part of a pair is a break of its own ... */
  lemma LoneReturnIsBreak(a: string, b: string)
    requires b == "" || b[0] != '\n'
    ensures UnixLines(a + "\r" + b) == UnixLines(a) + "\n" + UnixLines(b)
  {
    EndingIsBreak();
    UnixAcross("\r", b);
    UnixAcross(a, "\r" + b);
    assert a + "\r" + b == a + ("\r" + b);
    Associate(UnixLines(a), "\n", UnixLines(b));
  }

  /** ... and so is a line feed. */
  lemma LoneFeedIsBreak(a: string, b: string)
    requires a == "" || a[|a| - 1] != '\r'
    ensures UnixLines(a + "\n" + b) == UnixLines(a) + "\n" + UnixLines(b)
  {
    EndingIsBreak();
    UnixAcross("\n", b);
    UnixAcross(a, "\n" + b);
    assert a + "\n" + b == a + ("\n" + b);
    Associate(UnixLines(a), "\n", UnixLines(b));
  }

  /** Lines put together with one and the same ending. */
  function Ended(lines: seq<string>, ending: string): string {
    if lines == [] then "" else if |lines| == 1 then lines[0] else lines[0] + ending + Ended(lines[1..], ending)
  }

  predicate Endings(ending: string) { ending == "\n" || ending == "\r\n" || ending == "\r" }

  lemma {:induction false} EndedInUnix(lines: seq<string>, ending: string)
    requires Endings(ending) && forall k :: 0 <= k < |lines| ==> '\r' !in lines[k] && '\n' !in lines[k]
    ensures UnixLines(Ended(lines, ending)) == Ended(lines, "\n")
  {
    if |lines| == 1 {
      UnixLinesKeeps(lines[0]);
    } else if |lines| > 1 {
      var rest := Ended(lines[1..], ending);
      EndedInUnix(lines[1..], ending);
      UnixLinesKeeps(lines[0]);
      if ending == "\r\n" {
        PairIsOneBreak(lines[0], rest);
      } else if ending == "\r" {
        assert rest != "" ==> rest[0] != '\n' by { if lines[1] != "" { assert rest[0] == lines[1][0]; } }
        LoneReturnIsBreak(lines[0], rest);
      } else {
        LoneFeedIsBreak(lines[0], rest);
      }
    }
  }

  /** Which of the three endings a text uses makes no difference to the result. */
  lemma EndingsDoNotMatter(lines: seq<string>, ending: string, other: string)
    requires Endings(ending) && Endings(other)
    requires forall k :: 0 <= k < |lines| ==> '\r' !in lines[k] && '\n' !in lines[k]
    ensures Normal(Ended(lines, ending)) == Normal(Ended(lines, other))
  {
    EndedInUnix(lines, ending);
    EndedInUnix(lines, other);
  }

  // ---------- What becomes of the white space between two words ----------

  function Breaks(gap: string): nat {
    if gap == "" then 0 else Breaks(gap[..|gap| - 1]) + if gap[|gap| - 1] == '\n' then 1 else 0
  }

  function StandsAfter(s: string, at: Place): Place {
    if s == "" then at else Next(StandsAfter(s[..|s| - 1], at), s[|s| - 1])
  }

  lemma {:induction false} StandingFromFront(s: string, at: Place)
    requires s != ""
    ensures StandsAfter(s, at) == StandsAfter(s[1..], Next(at, s[0]))
  {
    var n := |s| - 1;
    if n > 0 {
      StandingFromFront(s[..n], at);
      assert s[..n][1..] == s[1..][..n - 1];
    }
  }

  lemma {:induction false} FlowAcross(a: string, b: string, at: Place)
    ensures Flow(a + b, at) == Flow(a, at) + Flow(b, StandsAfter(a, at))
    decreases |a|
  {
    if a == "" {
      assert a + b == b;
    } else {
      assert (a + b)[1..] == a[1..] + b;
      FlowAcross(a[1..], b, Next(at, a[0]));
      StandingFromFront(a, at);
      if !IsSpace(a[0]) {
        Associate(Lead(at), [a[0]] + Flow(a[1..], Word), Flow(b, StandsAfter(a, at)));
        Associate([a[0]], Flow(a[1..], Word), Flow(b, StandsAfter(a, at)));
      }
    }
  }

  lemma {:induction false} GapStands(gap: string)
    requires gap != "" && forall k :: 0 <= k < |gap| ==> IsSpace(gap[k])
    ensures StandsAfter(gap, Word) == Gap(if Breaks(gap) > 2 then 2 else Breaks(gap)) && Flow(gap, Word) == ""
  {
    var n := |gap| - 1;
    BlankFlow(gap, Word);
    if n > 0 { GapStands(gap[..n]); }
  }

  lemma {:induction false} BlankFlow(gap: string, at: Place)
    requires forall k :: 0 <= k < |gap| ==> IsSpace(gap[k])
    ensures Flow(gap, at) == ""
  {
    if gap != "" { BlankFlow(gap[1..], Next(at, gap[0])); }
  }

  lemma FlowAcrossGap(a: string, gap: string, b: string, at: Place)
    requires a != "" && !IsSpace(a[|a| - 1]) && OpensWord(b)
    requires StandsAfter(gap, Word) == at && Flow(gap, Word) == ""
    ensures Flow(a + gap + b, Start) == Flow(a, Start) + Lead(at) + Flow(b, Start)
  {
    FlowAcross(a + gap, b, Start);
    FlowAcross(a, gap, Start);
    StandingAcross(a, gap, Start);
    assert StandsAfter(a, Start) == Word;
    assert Flow(a, Start) + "" == Flow(a, Start);
    WordBehind(b, at);
    Associate(Flow(a, Start), Lead(at), Flow(b, Start));
  }

  /** What separates two words with so many breaks between them. */
  function Separator(breaks: nat): string {
    if breaks == 0 then " " else if breaks == 1 then "\n" else "\n\n"
  }

  /**
   The result is put together at every stretch of white space between two words: a space for one
   without a break, one break for a single one, and one blank line for two or more.
   */
  lemma NormalAcrossGap(a: string, gap: string, b: string)
    requires a != "" && !IsSpace(a[|a| - 1]) && OpensWord(b)
    requires gap != "" && forall k :: 0 <= k < |gap| ==> IsSpace(gap[k])
    requires '\r' !in a && '\r' !in gap && '\r' !in b
    ensures Normal(a + gap + b) == Normal(a) + Separator(Breaks(gap)) + Normal(b)
  {
    NormalIsFlow(a);
    NormalIsFlow(b);
    NormalIsFlow(a + gap + b);
    GapSeparates(a, gap, b);
  }

  lemma NormalIsFlow(s: string)
    requires '\r' !in s
    ensures Normal(s) == Flow(s, Start)
  {
    UnixLinesKeeps(s);
  }

  lemma GapSeparates(a: string, gap: string, b: string)
    requires a != "" && !IsSpace(a[|a| - 1]) && OpensWord(b)
    requires gap != "" && forall k :: 0 <= k < |gap| ==> IsSpace(gap[k])
    ensures Flow(a + gap + b, Start) == Flow(a, Start) + Separator(Breaks(gap)) + Flow(b, Start)
  {
    GapStands(gap);
    FlowAcrossGap(a, gap, b, Gap(if Breaks(gap) > 2 then 2 else Breaks(gap)));
  }

  lemma WordBehind(b: string, at: Place)
    requires OpensWord(b)
    ensures Flow(b, at) == Lead(at) + Flow(b, Start)
  {
    GapThenWord(b, at);
    GapThenWord(b, Start);
    Associate(Lead(at), [b[0]], Flow(b[1..], Word));
    assert Flow(b, Start) == [b[0]] + Flow(b[1..], Word);
  }

  lemma {:induction false} StandingAcross(a: string, b: string, at: Place)
    ensures StandsAfter(a + b, at) == StandsAfter(b, StandsAfter(a, at))
  {
    if b == "" {
      assert a + b == a;
    } else {
      assert (a + b)[..|a + b| - 1] == a + b[..|b| - 1];
      StandingAcross(a, b[..|b| - 1], at);
    }
  }

  // ---------- The program's loop over lines ----------

  /** What one line adds to the scan: nothing if it is blank. */
  function Shown(line: string, at: Place): string {
    if Fields(line) == [] then ""
    else if !at.Word? then Lead(at) + Clean(line)
    else if OpensWord(line) then Clean(line)
    else " " + Clean(line)
  }

  function Behind(line: string, at: Place): Place {
    if Fields(line) != [] then Word else if at.Word? then Gap(0) else at
  }

  /** One more character of a word in front of the scan. */
  lemma WordFlow(line: string, rest: string, at: Place)
    requires OpensWord(line) && '\n' !in line && (rest == "" || rest[0] == '\n')
    requires Flow(line[1..] + rest, Word) == Shown(line[1..], Word) + Flow(rest, Behind(line[1..], Word))
    ensures Flow(line + rest, at) == Shown(line, at) + Flow(rest, Word)
  {
    var shown, after := Shown(line[1..], Word), Flow(rest, Word);
    BreakNext(rest);
    assert Flow(line[1..] + rest, Word) == shown + after;
    assert OpensWord(line + rest) && (line + rest)[1..] == line[1..] + rest;
    GapThenWord(line + rest, at);
    WordShown(line, at);
    Associate(Lead(at) + [line[0]], shown, after);
  }

  lemma Associate(a: string, b: string, c: string)
    ensures (a + b) + c == a + (b + c)
  {
  }

  lemma {:induction false} LineFlow(line: string, rest: string, at: Place)
    requires '\n' !in line && (rest == "" || rest[0] == '\n') && (at.Gap? ==> at.breaks <= 2)
    ensures Flow(line + rest, at) == Shown(line, at) + Flow(rest, Behind(line, at))
  {
    if line == "" {
      assert line + rest == rest;
      if at.Word? { BreakNext(rest); }
    } else {
      assert (line + rest)[1..] == line[1..] + rest;
      if IsSpace(line[0]) {
        LineFlow(line[1..], rest, Next(at, line[0]));
      } else {
        LineFlow(line[1..], rest, Word);
        WordFlow(line, rest, at);
      }
    }
  }

  lemma WordShown(line: string, at: Place)
    requires OpensWord(line)
    ensures Shown(line, at) == Lead(at) + [line[0]] + Shown(line[1..], Word)
  {
    CleanWord(line);
    var tail := if OpensWord(line[1..]) || Fields(line[1..]) == [] then Clean(line[1..]) else " " + Clean(line[1..]);
    assert Shown(line[1..], Word) == tail;
    assert Clean(line) == [line[0]] + tail;
    assert at.Word? ==> Lead(at) + [line[0]] == [line[0]];
    Associate(Lead(at), [line[0]], tail);
  }

  /** Blanks before a line break, or the end, count for nothing. */
  lemma BreakNext(rest: string)
    requires rest == "" || rest[0] == '\n'
    ensures Flow(rest, Word) == Flow(rest, Gap(0))
  {
  }

  lemma CleanWord(line: string)
    requires OpensWord(line)
    ensures Clean(line)
         == [line[0]]
            + if OpensWord(line[1..]) || Fields(line[1..]) == [] then Clean(line[1..]) else " " + Clean(line[1..])
  {
    var rest := Fields(line[1..]);
    if OpensWord(line[1..]) {
      assert Fields(line)[1..] == rest[1..];
    } else {
      assert Fields(line) == [[line[0]]] + rest && Fields(line)[1..] == rest;
    }
  }

  lemma CleanIsBlankIff(line: string)
    ensures Clean(line) == "" <==> Fields(line) == []
  {
    if Fields(line) != [] { assert Fields(line)[0] != []; }
  }

  /** Where the scan stands at the start of a line, from what the loop holds there. */
  function Standing(cleanLines: seq<string>, blankLine: bool): Place {
    if cleanLines == [] then Start else if blankLine then Gap(2) else Gap(1)
  }

  /** One line of the loop: the text still to come shrinks by it. */
  lemma LineStep(lines: seq<string>, cleanLines: seq<string>, blankLine: bool)
    requires lines != [] && '\n' !in lines[0] && (blankLine ==> cleanLines != [])
    ensures var blank, line := Fields(lines[0]) == [], Clean(lines[0]);
            var more := if blank then cleanLines else (if blankLine then cleanLines + [""] else cleanLines) + [line];
            Join(cleanLines, '\n') + Flow(Join(lines, '\n'), Standing(cleanLines, blankLine))
            == Join(more, '\n') + Flow(Join(lines[1..], '\n'), Standing(more, blank && cleanLines != []))
  {
    var at := Standing(cleanLines, blankLine);
    FirstLine(lines, at);
    if Fields(lines[0]) != [] {
      AppendLine(cleanLines, blankLine, Clean(lines[0]));
      Associate(Join(cleanLines, '\n'), Lead(at) + Clean(lines[0]), Flow(Join(lines[1..], '\n'), Gap(1)));
      Associate(Join(cleanLines, '\n'), Lead(at), Clean(lines[0]));
    }
  }

  /** The scan over the first of the lines: a blank one only leaves its line break behind. */
  lemma FirstLine(lines: seq<string>, at: Place)
    requires lines != [] && '\n' !in lines[0] && at in [Start, Gap(1), Gap(2)]
    ensures var rest := Join(lines[1..], '\n');
            Flow(Join(lines, '\n'), at) ==
            if Fields(lines[0]) == [] then Flow(rest, if at.Start? then Start else Gap(2))
            else Lead(at) + Clean(lines[0]) + Flow(rest, Gap(1))
  {
    if |lines| == 1 {
      OnlyLine(lines, at);
    } else {
      var rest := Join(lines[1..], '\n');
      JoinFirst(lines);
      LineFlow(lines[0], ['\n'] + rest, at);
      BreakFlow(rest, Behind(lines[0], at));
    }
  }

  lemma OnlyLine(lines: seq<string>, at: Place)
    requires |lines| == 1 && '\n' !in lines[0] && at in [Start, Gap(1), Gap(2)]
    ensures Flow(Join(lines, '\n'), at) == if Fields(lines[0]) == [] then "" else Lead(at) + Clean(lines[0])
    ensures forall after: Place :: Flow(Join(lines[1..], '\n'), after) == ""
  {
    assert lines[1..] == [] && lines[0] + "" == lines[0];
    LineFlow(lines[0], "", at);
  }

  lemma JoinFirst(lines: seq<string>)
    requires |lines| > 1
    ensures Join(lines, '\n') == lines[0] + (['\n'] + Join(lines[1..], '\n'))
  {
    Associate(lines[0], ['\n'], Join(lines[1..], '\n'));
  }

  lemma BreakFlow(rest: string, at: Place)
    ensures Flow(['\n'] + rest, at) == Flow(rest, Next(at, '\n'))
  {
    assert (['\n'] + rest)[1..] == rest;
  }

  lemma AppendLine(cleanLines: seq<string>, blankLine: bool, line: string)
    requires blankLine ==> cleanLines != []
    ensures Join((if blankLine then cleanLines + [""] else cleanLines) + [line], '\n')
         == Join(cleanLines, '\n') + Lead(Standing(cleanLines, blankLine)) + line
  {
    if cleanLines == [] {
      assert cleanLines + [line] == [line];
    } else if blankLine {
      JoinAppend(cleanLines, [""], '\n');
      JoinAppend(cleanLines + [""], [line], '\n');
    } else {
      JoinAppend(cleanLines, [line], '\n');
    }
  }

  /** The line-normalising half of `StripHTMLPreserveNewlines`. */
  method PreserveNewlines(stripped: string) returns (text: string)
    ensures text == Normal(stripped)
  {
    var s := ReplaceCrLf(stripped);
    s := ReplaceCr(s);
    var lines := Split(s, '\n');
    JoinSplit(s, '\n');
    var cleanLines: seq<string> := [];
    var blankLine := false;
    for i := 0 to |lines|
      invariant blankLine ==> cleanLines != []
      invariant Flow(s, Start) == Join(cleanLines, '\n') + Flow(Join(lines[i..], '\n'), Standing(cleanLines, blankLine))
    {
      var line := Clean(lines[i]);
      CleanIsBlankIff(lines[i]);
      LineStep(lines[i..], cleanLines, blankLine);
      assert lines[i..][1..] == lines[i + 1..];
      if line == "" {
        if |cleanLines| > 0 { blankLine := true; }
        continue;
      }
      if blankLine {
        cleanLines := cleanLines + [""];
        blankLine := false;
      }
      cleanLines := cleanLines + [line];
    }
    NormalIsTidy(stripped);
    TrimKeepsTrimmed(Normal(stripped));
    return Trim(Join(cleanLines, '\n'));
  }
}
