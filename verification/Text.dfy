/** The string operations of Go's `strings` package and the line splitting of `bufio.Scanner`
    that the modelled program uses, and the laws its file editors rely on. */
module Text {
  import opened Seqs

  /** `unicode.IsSpace`. */
  predicate IsSpace(c: char) {
    var n := c as int;
    n == 0x20 || 9 <= n <= 13 || n == 0x85 || n == 0xA0 || n == 0x1680 || 0x2000 <= n <= 0x200A
    || n == 0x2028 || n == 0x2029 || n == 0x202F || n == 0x205F || n == 0x3000
  }

  function TrimLeft(s: string): string {
    if s != "" && IsSpace(s[0]) then TrimLeft(s[1..]) else s
  }

  function TrimRight(s: string): string {
    if s != "" && IsSpace(s[|s| - 1]) then TrimRight(s[..|s| - 1]) else s
  }

  /** `strings.TrimSpace`. */
  function Trim(s: string): string {
    TrimLeft(TrimRight(s))
  }

  predicate Blank(s: string) {
    Trim(s) == ""
  }

  predicate NoTrailingSpace(s: string) {
    s != "" ==> !IsSpace(s[|s| - 1])
  }

  predicate NoSpace(s: string) {
    forall c <- s :: !IsSpace(c)
  }

  /** Text without surrounding white space. */
  predicate Trimmed(s: string) {
    NoTrailingSpace(s) && (s != "" ==> !IsSpace(s[0]))
  }

  lemma TrimmedStays(s: string)
    requires Trimmed(s)
    ensures Trim(s) == s
  {
  }

  lemma {:induction false} TrimIsTrimmed(s: string)
    ensures Trimmed(Trim(s))
    decreases |s|
  {
    TrimRightNoTrailing(s);
    TrimLeftTrimmed(TrimRight(s));
  }

  lemma {:induction false} TrimRightNoTrailing(s: string)
    ensures NoTrailingSpace(TrimRight(s))
  {
    if s != "" && IsSpace(s[|s| - 1]) {
      TrimRightNoTrailing(s[..|s| - 1]);
    }
  }

  lemma {:induction false} TrimLeftTrimmed(s: string)
    requires NoTrailingSpace(s)
    ensures Trimmed(TrimLeft(s))
  {
    if s != "" && IsSpace(s[0]) {
      TrimLeftTrimmed(s[1..]);
    }
  }

  lemma {:induction false} TrimWithin(s: string)
    ensures forall c <- Trim(s) :: c in s
  {
    TrimLeftWithin(TrimRight(s));
    TrimRightWithin(s);
  }

  lemma {:induction false} TrimLeftWithin(s: string)
    ensures forall c <- TrimLeft(s) :: c in s
  {
    if s != "" && IsSpace(s[0]) {
      TrimLeftWithin(s[1..]);
    }
  }

  lemma {:induction false} TrimRightWithin(s: string)
    ensures forall c <- TrimRight(s) :: c in s
  {
    if s != "" && IsSpace(s[|s| - 1]) {
      TrimRightWithin(s[..|s| - 1]);
    }
  }

  lemma {:induction false} TrimRightKeeps(a: string, b: string)
    requires a != "" && !IsSpace(a[|a| - 1])
    ensures TrimRight(a + b) == a + TrimRight(b) && TrimRight(b) <= b
    decreases |b|
  {
    if b == "" {
      assert a + b == a;
    } else if IsSpace(b[|b| - 1]) {
      assert (a + b)[..|a + b| - 1] == a + b[..|b| - 1];
      TrimRightKeeps(a, b[..|b| - 1]);
    }
  }

  /** Trimming takes white space from both ends and leaves none there. */
  lemma TrimExact(s: string) returns (left: string, right: string)
    ensures s == left + Trim(s) + right && Trimmed(Trim(s))
    ensures (forall c <- left :: IsSpace(c)) && forall c <- right :: IsSpace(c)
  {
    right := RightSpaces(s);
    left := LeftSpaces(TrimRight(s));
    TrimIsTrimmed(s);
  }

  lemma {:induction false} RightSpaces(f: string) returns (spaces: string)
    ensures f == TrimRight(f) + spaces && forall c <- spaces :: IsSpace(c)
  {
    spaces := "";
    if f != "" && IsSpace(f[|f| - 1]) {
      spaces := RightSpaces(f[..|f| - 1]);
      spaces := spaces + [f[|f| - 1]];
    }
  }

  lemma {:induction false} LeftSpaces(f: string) returns (spaces: string)
    ensures f == spaces + TrimLeft(f) && forall c <- spaces :: IsSpace(c)
  {
    spaces := "";
    if f != "" && IsSpace(f[0]) {
      spaces := LeftSpaces(f[1..]);
      spaces := [f[0]] + spaces;
    }
  }

  /** A blank string in front of a trimmed non-blank one disappears when trimming. */
  lemma {:induction false} TrimBlankPrefix(blank: string, s: string)
    requires Blank(blank) && Trimmed(s) && s != ""
    ensures Trim(blank + s) == s
  {
    BlankAllSpace(blank);
    TrimLeftSpaces(blank, s);
  }

  lemma {:induction false} BlankAllSpace(s: string)
    ensures Blank(s) <==> forall c <- s :: IsSpace(c)
  {
    if s != "" {
      if IsSpace(s[|s| - 1]) {
        BlankAllSpace(s[..|s| - 1]);
        assert s == s[..|s| - 1] + [s[|s| - 1]];
      } else {
        TrimLeftKeepsLast(s);
      }
    }
  }

  lemma {:induction false} TrimLeftKeepsLast(s: string)
    requires s != "" && !IsSpace(s[|s| - 1])
    ensures TrimLeft(s) != ""
  {
    if IsSpace(s[0]) {
      TrimLeftKeepsLast(s[1..]);
    }
  }

  lemma {:induction false} TrimLeftSpaces(spaces: string, s: string)
    requires forall c <- spaces :: IsSpace(c)
    requires s != "" && !IsSpace(s[0])
    ensures TrimLeft(spaces + s) == s
  {
    if spaces != "" {
      assert (spaces + s)[1..] == spaces[1..] + s;
      TrimLeftSpaces(spaces[1..], s);
    } else {
      assert spaces + s == s;
    }
  }

  // ----- carriage returns

  /** One trailing carriage return removed, as `bufio.ScanLines` does. */
  function DropCR(s: string): string {
    if s != "" && s[|s| - 1] == '\r' then s[..|s| - 1] else s
  }

  function StripCR(s: string): string {
    if s != "" && s[|s| - 1] == '\r' then StripCR(s[..|s| - 1]) else s
  }

  lemma {:induction false} TrimStripCR(s: string)
    ensures Trim(StripCR(s)) == Trim(s)
  {
    if s != "" && s[|s| - 1] == '\r' {
      TrimStripCR(s[..|s| - 1]);
    }
  }

  // ----- lines

  /** Index of the first `c` in `s`, or the length of `s`. */
  function CutAt(s: string, c: char): (i: nat)
    ensures i <= |s| && c !in s[..i] && (i < |s| ==> s[i] == c)
  {
    if s == "" || s[0] == c then 0
    else
      var i := 1 + CutAt(s[1..], c);
      assert s[..i] == [s[0]] + s[1..][..i - 1];
      i
  }

  lemma {:induction false} CutAtFirst(a: string, c: char, b: string)
    requires c !in a
    ensures CutAt(a + [c] + b, c) == |a|
  {
    if a != "" {
      assert (a + [c] + b)[1..] == a[1..] + [c] + b;
      CutAtFirst(a[1..], c, b);
    }
  }

  /** The tokens that a `bufio.Scanner` with its default split function delivers. */
  function ScanLines(s: string): seq<string>
    decreases |s|
  {
    if s == "" then []
    else
      var i := CutAt(s, '\n');
      [DropCR(s[..i])] + if i < |s| then ScanLines(s[i + 1..]) else []
  }

  predicate OneLine(s: string) {
    '\n' !in s
  }

  predicate OneLiners(lines: seq<string>) {
    forall l <- lines :: OneLine(l)
  }

  /** `strings.Join` with a one-character separator. */
  function JoinBy(parts: seq<string>, sep: char): string {
    if parts == [] then ""
    else if |parts| == 1 then parts[0]
    else parts[0] + [sep] + JoinBy(parts[1..], sep)
  }

  function Join(lines: seq<string>): string {
    JoinBy(lines, '\n')
  }

  /** What the editors write back: the lines joined, and a final newline. */
  function Render(lines: seq<string>): string {
    Join(lines) + "\n"
  }

  predicate Terminated(s: string) {
    s == "" || s[|s| - 1] == '\n'
  }

  lemma {:induction false} ScanOneLiners(s: string)
    ensures OneLiners(ScanLines(s))
    decreases |s|
  {
    if s != "" {
      var i := CutAt(s, '\n');
      if i < |s| {
        ScanOneLiners(s[i + 1..]);
      }
    }
  }

  lemma ScanNothing()
    ensures ScanLines("") == []
  {
  }

  lemma ScanCons(a: string, rest: string)
    requires OneLine(a)
    ensures ScanLines(a + "\n" + rest) == [DropCR(a)] + ScanLines(rest)
  {
    CutAtFirst(a, '\n', rest);
    var s := a + "\n" + rest;
    assert s[..|a|] == a && s[|a| + 1..] == rest;
  }

  lemma ScanOne(a: string)
    requires OneLine(a) && a != ""
    ensures ScanLines(a) == [DropCR(a)]
  {
    assert a[..|a|] == a;
  }

  lemma RenderCons(line: string, rest: seq<string>)
    requires rest != []
    ensures Render([line] + rest) == line + "\n" + Render(rest)
  {
    assert ([line] + rest)[1..] == rest;
  }

  lemma {:induction false} ScanRender(lines: seq<string>)
    requires lines != [] && OneLiners(lines)
    ensures ScanLines(Render(lines)) == Map(DropCR, lines)
  {
    hide ScanLines, DropCR, Render;
    var line, rest := lines[0], lines[1..];
    assert lines == [line] + rest && OneLine(line);
    if rest == [] {
      assert lines == [line];
      ScanRenderOne(line);
    } else {
      RenderCons(line, rest);
      ScanCons(line, Render(rest));
      ScanRender(rest);
    }
  }

  lemma ScanRenderOne(line: string)
    requires OneLine(line)
    ensures ScanLines(Render([line])) == [DropCR(line)]
  {
    ScanCons(line, "");
    assert Render([line]) == line + "\n" + "";
  }

  /** A non-empty terminated text is a line, a newline and a terminated rest. */
  lemma FirstLine(s: string) returns (line: string, rest: string)
    requires s != "" && Terminated(s)
    ensures s == line + "\n" + rest && OneLine(line) && Terminated(rest)
    ensures ScanLines(s) == [DropCR(line)] + ScanLines(rest)
  {
    var i := CutAt(s, '\n');
    assert s[..|s|] == s;
    line, rest := s[..i], s[i + 1..];
    assert s == line + "\n" + rest;
    ScanCons(line, rest);
  }

  lemma ScanConsAppend(line: string, rest: string, t: string)
    requires OneLine(line) && ScanLines(rest + t) == ScanLines(rest) + ScanLines(t)
    ensures ScanLines(line + "\n" + rest + t) == ScanLines(line + "\n" + rest) + ScanLines(t)
  {
    hide ScanLines, CutAt;
    ScanCons(line, rest);
    ScanCons(line, rest + t);
    assert line + "\n" + rest + t == line + "\n" + (rest + t);
  }

  lemma {:induction false} ScanAppend(s: string, t: string)
    requires Terminated(s)
    ensures ScanLines(s + t) == ScanLines(s) + ScanLines(t)
    decreases |s|
  {
    if s == "" {
      assert s + t == t;
    } else {
      var line, rest := FirstLine(s);
      ScanAppend(rest, t);
      ScanConsAppend(line, rest, t);
    }
  }

  /** Rendering the scanned lines gives the text back exactly when the text is a non-empty sequence
      of newline-terminated lines none of which ends in a carriage return. */
  predicate NoCRLF(s: string) {
    forall i | 0 <= i < |s| - 1 :: !(s[i] == '\r' && s[i + 1] == '\n')
  }

  lemma {:induction false} RenderScan(s: string)
    ensures Render(ScanLines(s)) == s <==> s != "" && Terminated(s) && NoCRLF(s)
  {
    if s == "" {
    } else if !Terminated(s) {
      var r := Render(ScanLines(s));
      assert r[|r| - 1] == '\n';
    } else {
      RenderScanTerminated(s);
    }
  }

  lemma {:induction false} RenderScanTerminated(s: string)
    requires s != "" && Terminated(s)
    ensures |Render(ScanLines(s))| <= |s|
    ensures |Render(ScanLines(s))| == |s| <==> NoCRLF(s)
    ensures NoCRLF(s) ==> Render(ScanLines(s)) == s
    decreases |s|
  {
    var line, rest := FirstLine(s);
    NoCRLFSplit(line, rest);
    if rest == "" {
      assert ScanLines(s) == [DropCR(line)];
    } else {
      RenderScanTerminated(rest);
      RenderCons(DropCR(line), ScanLines(rest));
    }
  }

  lemma NoCRLFSplit(a: string, rest: string)
    requires OneLine(a)
    ensures NoCRLF(a + "\n" + rest) <==> DropCR(a) == a && NoCRLF(rest)
  {
    var s := a + "\n" + rest;
    if DropCR(a) != a {
      assert s[|a| - 1] == '\r' && s[|a| - 1 + 1] == '\n';
    } else if !NoCRLF(rest) {
      var k :| 0 <= k < |rest| - 1 && rest[k] == '\r' && rest[k + 1] == '\n';
      assert s[|a| + 1 + k] == '\r' && s[|a| + 1 + k + 1] == '\n';
    } else {
      forall k | 0 <= k < |s| - 1 ensures !(s[k] == '\r' && s[k + 1] == '\n') {
        if k + 1 < |a| {
          assert s[k + 1] == a[k + 1];
        } else if |a| < k {
          assert s[k] == rest[k - |a| - 1] && s[k + 1] == rest[k - |a| - 1 + 1];
        }
      }
    }
  }

  // ----- the rows of a configuration file

  predicate NonBlank(s: string) {
    !Blank(s)
  }

  /** The non-blank lines without their trailing carriage returns: all of a configuration file
      that its readers can tell apart. Leading white space is kept. */
  function RowsOf(lines: seq<string>): seq<string> {
    Filter(NonBlank, Map(StripCR, lines))
  }

  function Rows(content: string): seq<string> {
    RowsOf(ScanLines(content))
  }

  lemma RowsOfConcat(a: seq<string>, b: seq<string>)
    ensures RowsOf(a + b) == RowsOf(a) + RowsOf(b)
  {
    assert Map(StripCR, a + b) == Map(StripCR, a) + Map(StripCR, b);
    FilterConcat(NonBlank, Map(StripCR, a), Map(StripCR, b));
  }

  lemma {:induction false} RowsOfDropCR(lines: seq<string>)
    ensures RowsOf(Map(DropCR, lines)) == RowsOf(lines)
  {
    assert forall i | 0 <= i < |lines| :: StripCR(DropCR(lines[i])) == StripCR(lines[i]);
    assert Map(StripCR, Map(DropCR, lines)) == Map(StripCR, lines);
  }

  /** Writing lines and scanning them again preserves the rows. */
  lemma RowsRender(lines: seq<string>)
    requires OneLiners(lines)
    ensures Rows(Render(lines)) == RowsOf(lines)
  {
    if lines == [] {
      ScanCons("", "");
      assert Render(lines) == "" + "\n" + "";
      assert ScanLines(Render(lines)) == [""];
      assert RowsOf([""]) == [];
    } else {
      ScanRender(lines);
      RowsOfDropCR(lines);
    }
  }

  lemma RowsAppendLine(content: string, line: string)
    requires Terminated(content) && OneLine(line) && NonBlank(line) && NoTrailingSpace(line)
    ensures Rows(content + line + "\n") == Rows(content) + [line]
  {
    hide ScanLines, RowsOf, DropCR, Trim, IsSpace;
    assert content + line + "\n" == content + (line + "\n");
    ScanAppend(content, line + "\n");
    ScanCons(line, "");
    ScanNothing();
    DropsNothing(line);
    assert line + "\n" == line + "\n" + "" && [line] + [] == [line];
    RowsOfConcat(ScanLines(content), [line]);
    RowOfLine(line);
  }

  lemma DropsNothing(line: string)
    requires NoTrailingSpace(line)
    ensures DropCR(line) == line
  {
  }

  lemma RowOfLine(line: string)
    requires NonBlank(line) && NoTrailingSpace(line)
    ensures RowsOf([line]) == [line]
  {
    assert Map(StripCR, [line]) == [line];
    assert [line][..0] == [];
  }

  /** Dropping lines by a test that looks at their trimmed text drops the same rows. */
  lemma {:induction false} RowsOfFilter(keep: string -> bool, lines: seq<string>)
    requires forall l: string :: keep(StripCR(l)) == keep(l)
    ensures RowsOf(Filter(keep, lines)) == Filter(keep, RowsOf(lines))
  {
    FilterMap(keep, StripCR, lines, keep);
    FilterCommutes(NonBlank, keep, Map(StripCR, lines));
  }

  /** A view that ignores blank lines and trailing carriage returns is a view of the rows. */
  lemma ViewOfRows<U>(view: string -> seq<U>, lines: seq<string>)
    requires forall l: string :: view(StripCR(l)) == view(l)
    requires forall l: string :: Blank(l) ==> view(l) == []
    ensures FlatMap(view, RowsOf(lines)) == FlatMap(view, lines)
  {
    FlatMapFilter(view, NonBlank, Map(StripCR, lines));
    FlatMapMap(view, StripCR, lines);
  }

  // ----- splitting

  /** `strings.Split(s, sep)` for a one-character separator. */
  function Split(s: string, sep: char): (parts: seq<string>)
    ensures parts != []
    decreases |s|
  {
    var i := CutAt(s, sep);
    if i == |s| then [s] else [s[..i]] + Split(s[i + 1..], sep)
  }

  lemma SplitCons(a: string, sep: char, rest: string)
    requires sep !in a
    ensures Split(a + [sep] + rest, sep) == [a] + Split(rest, sep)
  {
    CutAtFirst(a, sep, rest);
    var s := a + [sep] + rest;
    assert s[..|a|] == a && s[|a| + 1..] == rest;
  }

  lemma SplitOne(a: string, sep: char)
    requires sep !in a
    ensures Split(a, sep) == [a]
  {
  }

  /** `strings.SplitN(s, sep, 2)`: the text before the first separator and the text after it. */
  datatype Cut = NoCut | Cut(before: string, after: string)

  function CutFirst(s: string, sep: char): Cut {
    var i := CutAt(s, sep);
    if i == |s| then NoCut else Cut(s[..i], s[i + 1..])
  }

  lemma CutFirstOf(a: string, sep: char, b: string)
    requires sep !in a
    ensures CutFirst(a + [sep] + b, sep) == Cut(a, b)
  {
    CutAtFirst(a, sep, b);
    var s := a + [sep] + b;
    assert s[..|a|] == a && s[|a| + 1..] == b;
  }

  lemma CutFirstInverse(s: string, sep: char)
    ensures CutFirst(s, sep).NoCut? <==> sep !in s
    ensures CutFirst(s, sep).Cut? ==>
              sep !in CutFirst(s, sep).before && s == CutFirst(s, sep).before + [sep] + CutFirst(s, sep).after
  {
    assert s[..|s|] == s;
  }

  /** Splitting undoes joining exactly when no part contains the separator. */
  lemma {:induction false} SplitJoin(parts: seq<string>, sep: char)
    requires parts != []
    ensures Split(JoinBy(parts, sep), sep) == parts <==> forall p <- parts :: sep !in p
  {
    SplitParts(JoinBy(parts, sep), sep);
    if forall p <- parts :: sep !in p {
      SplitJoinSafe(parts, sep);
    }
  }

  lemma {:induction false} SplitParts(s: string, sep: char)
    ensures forall p <- Split(s, sep) :: sep !in p
    decreases |s|
  {
    var i := CutAt(s, sep);
    if i < |s| {
      SplitParts(s[i + 1..], sep);
    } else {
      assert s[..i] == s;
    }
  }

  lemma {:induction false} SplitJoinSafe(parts: seq<string>, sep: char)
    requires parts != [] && forall p <- parts :: sep !in p
    ensures Split(JoinBy(parts, sep), sep) == parts
  {
    if |parts| == 1 {
      SplitOne(parts[0], sep);
    } else {
      SplitJoinSafe(parts[1..], sep);
      SplitCons(parts[0], sep, JoinBy(parts[1..], sep));
    }
  }

  /** `strings.SplitN(s, sep, n)`. */
  function SplitN(s: string, sep: char, n: nat): (parts: seq<string>)
    requires n > 0
    ensures 1 <= |parts| <= n
    decreases n
  {
    var i := CutAt(s, sep);
    if n == 1 || i == |s| then [s] else [s[..i]] + SplitN(s[i + 1..], sep, n - 1)
  }

  // ----- searching, ignoring case

  /** Case folding of ASCII letters. */
  function LowerChar(c: char): char {
    if 'A' <= c <= 'Z' then (c as int + 32) as char else c
  }

  function ToLower(s: string): string {
    Map(LowerChar, s)
  }

  lemma PrefixSlice(s: string, t: string)
    requires t <= s
    ensures s[0..0 + |t|] == t
  {
  }

  lemma TailSlice(s: string, i: nat, n: nat)
    requires 1 <= i && i + n <= |s|
    ensures s[1..][i - 1..i - 1 + n] == s[i..i + n]
  {
  }

  /** `strings.Index`: where `t` first occurs in `s`, or -1. */
  function Index(s: string, t: string): (i: int)
    ensures -1 <= i <= |s|
    ensures i >= 0 ==> i + |t| <= |s| && s[i..i + |t|] == t
  {
    if t <= s then
      PrefixSlice(s, t);
      0
    else if s == "" then -1
    else
      var i := Index(s[1..], t);
      if i < 0 then -1
      else
        TailSlice(s, i + 1, |t|);
        i + 1
  }

  predicate Contains(s: string, t: string) {
    Index(s, t) >= 0
  }

  /** `t` occurs in `s` at `i`. */
  predicate At(s: string, t: string, i: nat) {
    i + |t| <= |s| && s[i..i + |t|] == t
  }

  lemma AtStart(s: string, t: string)
    ensures At(s, t, 0) <==> t <= s
  {
    if |t| <= |s| {
      assert s[0..|t|] == s[..|t|];
    }
  }

  lemma AtTail(s: string, t: string, i: nat)
    requires 1 <= i && At(s, t, i)
    ensures s != "" && At(s[1..], t, i - 1)
  {
    TailSlice(s, i, |t|);
  }

  /** The index found is the first one. */
  lemma {:induction false} IndexIsFirst(s: string, t: string, i: nat)
    requires At(s, t, i)
    ensures 0 <= Index(s, t) <= i
  {
    hide At;
    AtStart(s, t);
    if !(t <= s) {
      AtTail(s, t, i);
      IndexIsFirst(s[1..], t, i - 1);
    }
  }

  lemma CommonPrefix(p: string, x: string, y: string)
    ensures p + x <= p + y <==> x <= y
  {
    if p + x <= p + y {
      assert (p + y)[|p|..] == y && (p + y)[..|p + x|][|p|..] == x;
      assert y[..|x|] == x;
    }
  }

  // ----- searching, told letter by letter

  /** The same character, or the two cases of an ASCII letter. */
  predicate SameLetter(c: char, d: char) {
    c == d || ('A' <= c <= 'Z' && d as int - c as int == 32) || ('A' <= d <= 'Z' && c as int - d as int == 32)
  }

  predicate SameLetters(s: string, t: string) {
    |s| == |t| && forall k | 0 <= k < |s| :: SameLetter(s[k], t[k])
  }

  predicate StandsAt(s: string, t: string, i: nat) {
    i + |t| <= |s| && forall k | 0 <= k < |t| :: SameLetter(s[i + k], t[k])
  }

  /** The text `t` stands somewhere in `s`, in whatever case. */
  predicate Occurs(s: string, t: string) {
    exists i | 0 <= i <= |s| :: StandsAt(s, t, i)
  }

  lemma LowerLetters(s: string, t: string)
    ensures ToLower(s) == ToLower(t) <==> SameLetters(s, t)
  {
    if ToLower(s) == ToLower(t) {
      forall k | 0 <= k < |s| ensures SameLetter(s[k], t[k]) {
        assert ToLower(s)[k] == ToLower(t)[k];
      }
    }
  }

  lemma StandsExact(s: string, t: string, i: nat)
    ensures At(ToLower(s), ToLower(t), i) <==> StandsAt(s, t, i)
  {
    hide LowerChar, SameLetter;
    var low, word := ToLower(s), ToLower(t);
    if i + |t| <= |s| {
      var part := s[i..i + |t|];
      assert ToLower(part) == low[i..i + |t|];
      LowerLetters(part, t);
      assert forall k | 0 <= k < |t| :: part[k] == s[i + k];
    }
  }

  /** The search in lower case finds a text exactly when it occurs. */
  lemma ContainsExact(s: string, t: string)
    ensures Contains(ToLower(s), ToLower(t)) <==> Occurs(s, t)
  {
    hide ToLower, StandsAt;
    var low, word := ToLower(s), ToLower(t);
    LowerSize(s);
    if Contains(low, word) {
      var i := Index(low, word);
      StandsExact(s, t, i);
    }
    if Occurs(s, t) {
      var i :| 0 <= i <= |s| && StandsAt(s, t, i);
      StandsExact(s, t, i);
      IndexIsFirst(low, word, i);
    }
  }

  lemma LowerSize(s: string)
    ensures |ToLower(s)| == |s|
  {
  }

  // ----- texts put together from parts

  function Concat(parts: seq<string>): string {
    if parts == [] then "" else parts[0] + Concat(parts[1..])
  }

  /** A text put together from one-line parts, of which the last is not empty and ends in no space. */
  lemma {:induction false} ConcatSays(parts: seq<string>)
    requires parts != [] && OneLiners(parts)
    requires parts[|parts| - 1] != "" && NoTrailingSpace(parts[|parts| - 1])
    ensures OneLine(Concat(parts)) && Concat(parts) != "" && NoTrailingSpace(Concat(parts))
    ensures parts[0] <= Concat(parts)
  {
    hide OneLine, NoTrailingSpace;
    assert OneLine(parts[0]);
    if |parts| == 1 {
      assert parts[1..] == [] && parts[0] + "" == parts[0];
    } else {
      assert parts[1..][|parts| - 2] == parts[|parts| - 1];
      ConcatSays(parts[1..]);
      GlueSays(parts[0], Concat(parts[1..]));
    }
  }

  lemma GlueSays(a: string, b: string)
    requires OneLine(a) && OneLine(b) && b != "" && NoTrailingSpace(b)
    ensures OneLine(a + b) && a + b != "" && NoTrailingSpace(a + b) && a <= a + b
  {
  }
}
