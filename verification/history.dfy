/** The history file `UrlProcessor` keeps: one line `url|seconds` per opened
    URL, the newest on top. A write builds the new file as the new line
    followed by every line of the prior file, copied as read. */
module History {
  import opened Base

  // ---------------------------------------------------------------------
  // Decimal numerals, as `str(int(...))` writes a non-negative number

  predicate IsDigit(c: char) {
    '0' <= c <= '9'
  }

  predicate AllDigits(s: string) {
    forall k :: 0 <= k < |s| ==> IsDigit(s[k])
  }

  function Digit(d: nat): (c: char)
    requires d < 10
    ensures IsDigit(c) && c as int - '0' as int == d
  {
    ('0' as int + d) as char
  }

  /** `str(n)` for a non-negative `n`. */
  function Decimal(n: nat): (r: string)
    ensures |r| > 0 && AllDigits(r)
    ensures |r| > 1 ==> r[0] != '0'
    decreases n
  {
    if n < 10 then [Digit(n)] else Decimal(n / 10) + [Digit(n % 10)]
  }

  /** The value of a string of digits, most significant first. */
  function DigitsValue(s: string): nat
    requires AllDigits(s)
  {
    if |s| == 0 then 0
    else DigitsValue(s[..|s| - 1]) * 10 + (s[|s| - 1] as int - '0' as int)
  }

  /** Reading back a written number gives the number. */
  lemma {:induction false} DecimalRoundTrip(n: nat)
    ensures DigitsValue(Decimal(n)) == n
    decreases n
  {
    var r := Decimal(n);
    if n >= 10 {
      DecimalRoundTrip(n / 10);
      assert r[..|r| - 1] == Decimal(n / 10);
    }
  }

  // ---------------------------------------------------------------------
  // Entries and lines

  /** One visit: the URL and the whole seconds since the epoch. */
  datatype Entry = Entry(url: string, stamp: nat)

  /** One history line: the URL, a bar, the whole seconds in decimal, and a
      newline. */
  function Line(e: Entry): (r: string)
    ensures |r| > 0 && r[|r| - 1] == '\n'
    ensures NoNewline(e.url) ==> NoNewline(r[..|r| - 1])
  {
    var r := e.url + "|" + Decimal(e.stamp) + "\n";
    assert r[..|r| - 1] == e.url + "|" + Decimal(e.stamp);
    NoNewlineAppend(e.url, "|");
    NoNewlineAppend(e.url + "|", Decimal(e.stamp));
    r
  }

  /** Position of the last `c` in `s`, if any. */
  function LastIndex(s: string, c: char): (r: Option<nat>)
    ensures r.Some? ==> r.value < |s| && s[r.value] == c
    ensures r.Some? ==> forall k :: r.value < k < |s| ==> s[k] != c
    ensures r.None? ==> forall k :: 0 <= k < |s| ==> s[k] != c
  {
    if |s| == 0 then None
    else if s[|s| - 1] == c then Some(|s| - 1)
    else LastIndex(s[..|s| - 1], c)
  }

  /** Reads one history line back: drop the line end, split at the last
      `|` (a URL may contain `|`, a number never does), read the number. */
  function ParseLine(line: string): (r: Option<Entry>)
    ensures r.Some? ==> exists k :: 0 <= k < |line| && line[k] == '|' && r.value.url == line[..k]
  {
    var body := if |line| > 0 && line[|line| - 1] == '\n' then line[..|line| - 1] else line;
    match LastIndex(body, '|')
    case None => None
    case Some(k) =>
      var digits := body[k + 1..];
      if |digits| == 0 || !AllDigits(digits) then None
      else
        assert line[k] == '|' && line[..k] == body[..k];
        Some(Entry(body[..k], DigitsValue(digits)))
  }

  /** A written line reads back as the entry that was written. */
  lemma ParseLineRoundTrip(e: Entry)
    ensures ParseLine(Line(e)) == Some(e)
  {
    var line := Line(e);
    var d := Decimal(e.stamp);
    var body := line[..|line| - 1];
    assert body == e.url + "|" + d;
    assert body[|e.url|] == '|';
    assert forall k :: |e.url| < k < |body| ==> body[k] == d[k - |e.url| - 1];
    assert body[|e.url| + 1..] == d;
    assert body[..|e.url|] == e.url;
    DecimalRoundTrip(e.stamp);
  }

  // ---------------------------------------------------------------------
  // Lines of a file, as iterating over an open text file yields them

  /** Length of the first line of `s`, its newline included. */
  function FirstLineLength(s: string): (n: nat)
    requires |s| > 0
    ensures 0 < n <= |s|
    ensures NoNewline(s[..n - 1])
    ensures n < |s| ==> s[n - 1] == '\n'
  {
    if s[0] == '\n' || |s| == 1 then 1
    else
      var m := FirstLineLength(s[1..]);
      assert s[..m] == [s[0]] + s[1..][..m - 1];
      NoNewlineAppend([s[0]], s[1..][..m - 1]);
      m + 1
  }

  /** The lines of `s`: each ends in a newline except possibly the last. */
  function Lines(s: string): (r: seq<string>)
    ensures forall k :: 0 <= k < |r| ==> |r[k]| > 0
    decreases |s|
  {
    if |s| == 0 then [] else
      var n := FirstLineLength(s);
      [s[..n]] + Lines(s[n..])
  }

  function Join(lines: seq<string>): string {
    if |lines| == 0 then "" else lines[0] + Join(lines[1..])
  }

  /** Writing out the lines of a file one after another reproduces it. */
  lemma {:induction false} JoinLines(s: string)
    ensures Join(Lines(s)) == s
    decreases |s|
  {
    if |s| > 0 {
      var n := FirstLineLength(s);
      JoinLines(s[n..]);
      assert Lines(s)[1..] == Lines(s[n..]);
    }
  }

  lemma JoinAppend(a: seq<string>, b: seq<string>)
    ensures Join(a + b) == Join(a) + Join(b)
  {
    if |a| > 0 {
      assert (a + b)[1..] == a[1..] + b;
      JoinAppend(a[1..], b);
      assert Join(a + b) == a[0] + Join(a[1..] + b);
    } else {
      assert a + b == b;
    }
  }

  /** A line ending in its only newline is the first line of anything it
      starts. */
  lemma LinesAfterLine(line: string, rest: string)
    requires |line| > 0 && line[|line| - 1] == '\n' && NoNewline(line[..|line| - 1])
    ensures Lines(line + rest) == [line] + Lines(rest)
  {
    var s := line + rest;
    var n := FirstLineLength(s);
    assert s[..|line|] == line;
    assert n == |line|;
    assert s[n..] == rest;
  }

  // ---------------------------------------------------------------------
  // Writing

  /** The new history: the new line, then the prior file. */
  function Prepend(prior: string, e: Entry): (r: string)
    ensures |r| == |Line(e)| + |prior|
    ensures r[|Line(e)|..] == prior
  {
    Line(e) + prior
  }

  /** Drops the first line of a file. */
  function DropFirstLine(s: string): (r: string)
    ensures |r| < |s| || s == ""
  {
    if |s| == 0 then "" else s[FirstLineLength(s)..]
  }

  /** A write only adds a line on top: dropping it gives back the prior
      history, and the prior lines follow the new one unchanged. */
  lemma PrependOnly(prior: string, e: Entry)
    requires NoNewline(e.url)
    ensures DropFirstLine(Prepend(prior, e)) == prior
    ensures Lines(Prepend(prior, e)) == [Line(e)] + Lines(prior)
  {
    LinesAfterLine(Line(e), prior);
    var s := Prepend(prior, e);
    assert Lines(s)[0] == s[..FirstLineLength(s)];
  }

  /** `__write_to_file`: the new line goes into the temporary file, the prior
      history is read line by line and copied after it, and the temporary
      file replaces the history. A missing history file raises after the
      new line was written, and the history is left as it was (absent). */
  method WriteToFile(history: Option<string>, e: Entry) returns (r: Result<string, Fault>)
    ensures r.Err? <==> history.None?
    ensures r.Err? ==> r.error == HistoryMissing
    ensures r.Ok? ==> r.value == Prepend(history.value, e)
    ensures r == Write(history, e)
  {
    var temp := Line(e);
    if history.None? {
      return Err(HistoryMissing);
    }
    var lines := Lines(history.value);
    var i := 0;
    while i < |lines|
      invariant 0 <= i <= |lines|
      invariant temp == Line(e) + Join(lines[..i])
    {
      assert lines[..i + 1] == lines[..i] + [lines[i]];
      JoinAppend(lines[..i], [lines[i]]);
      temp := temp + lines[i];
      i := i + 1;
    }
    assert lines[..i] == lines;
    JoinLines(history.value);
    return Ok(temp);
  }

  /** The function form of `WriteToFile`, the same write (the method's
      contract says so), for reasoning about many writes. */
  function Write(history: Option<string>, e: Entry): (r: Result<string, Fault>)
    ensures r.Err? <==> history.None?
    ensures r.Err? ==> r.error == HistoryMissing
    ensures r.Ok? ==> |r.value| > |history.value|
  {
    match history
    case None => Err(HistoryMissing)
    case Some(prior) => Ok(Prepend(prior, e))
  }

  // ---------------------------------------------------------------------
  // Reading the whole history

  function ParseLines(lines: seq<string>): (r: Option<seq<Entry>>)
    ensures r.Some? ==> |r.value| == |lines|
  {
    if |lines| == 0 then Some([])
    else
      match (ParseLine(lines[0]), ParseLines(lines[1..]))
      case (Some(e), Some(es)) => Some([e] + es)
      case _ => None
  }

  /** The entries of a history file, top to bottom. */
  function ParseHistory(s: string): (r: Option<seq<Entry>>)
    ensures r.Some? ==> |r.value| == |Lines(s)|
  {
    ParseLines(Lines(s))
  }

  /** After a write, the history reads as the new entry on top of the prior
      ones. */
  lemma PrependParses(prior: string, e: Entry, es: seq<Entry>)
    requires NoNewline(e.url) && ParseHistory(prior) == Some(es)
    ensures ParseHistory(Prepend(prior, e)) == Some([e] + es)
  {
    PrependOnly(prior, e);
    ParseLineRoundTrip(e);
    var lines := [Line(e)] + Lines(prior);
    assert lines[1..] == Lines(prior);
  }

  /** The history after writing `es[0]`, then `es[1]`, and so on. */
  function Replay(history: string, es: seq<Entry>): string
    decreases |es|
  {
    if |es| == 0 then history else Replay(Prepend(history, es[0]), es[1..])
  }

  function Reverse<T>(xs: seq<T>): (r: seq<T>)
    ensures |r| == |xs|
    ensures forall k :: 0 <= k < |xs| ==> r[k] == xs[|xs| - 1 - k]
  {
    if |xs| == 0 then [] else Reverse(xs[1..]) + [xs[0]]
  }

  predicate UrlsSingleLine(es: seq<Entry>) {
    forall k :: 0 <= k < |es| ==> NoNewline(es[k].url)
  }

  lemma UrlsSingleLineTail(es: seq<Entry>)
    requires |es| > 0 && UrlsSingleLine(es)
    ensures NoNewline(es[0].url) && UrlsSingleLine(es[1..])
  {
    assert forall k :: 0 <= k < |es| - 1 ==> es[1..][k] == es[k + 1];
  }

  /** Writes pile up newest first on top of what was there. */
  lemma {:induction false} ReplayNewestFirst(history: string, prior: seq<Entry>, es: seq<Entry>)
    requires ParseHistory(history) == Some(prior) && UrlsSingleLine(es)
    ensures ParseHistory(Replay(history, es)) == Some(Reverse(es) + prior)
    decreases |es|
  {
    if |es| > 0 {
      var next := Prepend(history, es[0]);
      UrlsSingleLineTail(es);
      PrependParses(history, es[0], prior);
      ReplayNewestFirst(next, [es[0]] + prior, es[1..]);
      assert Replay(history, es) == Replay(next, es[1..]);
      assert Reverse(es) == Reverse(es[1..]) + [es[0]];
      AppendAssoc(Reverse(es[1..]), [es[0]], prior);
    } else {
      assert Reverse(es) + prior == prior;
    }
  }

  /** Writing `a` and then `b` is writing `a + b`. */
  lemma {:induction false} ReplayAppend(history: string, a: seq<Entry>, b: seq<Entry>)
    ensures Replay(Replay(history, a), b) == Replay(history, a + b)
    decreases |a|
  {
    if |a| > 0 {
      ReplayAppend(Prepend(history, a[0]), a[1..], b);
      assert (a + b)[1..] == a[1..] + b;
    } else {
      assert a + b == b;
    }
  }

  /** The history lines of the entries, in the same order. */
  function LinesOf(es: seq<Entry>): (r: seq<string>)
    ensures |r| == |es|
    ensures forall k :: 0 <= k < |es| ==> r[k] == Line(es[k])
  {
    if |es| == 0 then [] else [Line(es[0])] + LinesOf(es[1..])
  }

  lemma LinesOfAppend(a: seq<Entry>, b: seq<Entry>)
    ensures LinesOf(a + b) == LinesOf(a) + LinesOf(b)
  {
  }

  /** Whatever the prior file holds, parseable or not, writes put their
      lines on top of it newest first and leave its text unchanged below. */
  lemma {:induction false} ReplayStacksLines(history: string, es: seq<Entry>)
    ensures Replay(history, es) == Join(LinesOf(Reverse(es))) + history
    decreases |es|
  {
    if |es| > 0 {
      var next := Prepend(history, es[0]);
      ReplayStacksLines(next, es[1..]);
      assert Replay(history, es) == Replay(next, es[1..]);
      assert Reverse(es) == Reverse(es[1..]) + [es[0]];
      LinesOfAppend(Reverse(es[1..]), [es[0]]);
      JoinAppend(LinesOf(Reverse(es[1..])), LinesOf([es[0]]));
      assert Join(LinesOf([es[0]])) == Line(es[0]);
      AppendAssoc(Join(LinesOf(Reverse(es[1..]))), Line(es[0]), history);
    } else {
      assert Join(LinesOf(Reverse(es))) + history == history;
    }
  }

  /** Read line by line, the history after the writes is one line per
      write, newest first, followed by the prior file's lines unchanged. */
  lemma {:induction false} ReplayLinesOnTop(history: string, es: seq<Entry>)
    requires UrlsSingleLine(es)
    ensures Lines(Replay(history, es)) == LinesOf(Reverse(es)) + Lines(history)
    decreases |es|
  {
    if |es| > 0 {
      var next := Prepend(history, es[0]);
      PrependOnly(history, es[0]);
      UrlsSingleLineTail(es);
      ReplayLinesOnTop(next, es[1..]);
      var above := LinesOf(Reverse(es[1..]));
      assert Replay(history, es) == Replay(next, es[1..]);
      assert Lines(Replay(history, es)) == above + ([Line(es[0])] + Lines(history));
      AppendAssoc(above, [Line(es[0])], Lines(history));
      assert Reverse(es) == Reverse(es[1..]) + [es[0]];
      LinesOfAppend(Reverse(es[1..]), [es[0]]);
      assert LinesOf(Reverse(es)) == above + [Line(es[0])];
    } else {
      assert LinesOf(Reverse(es)) + Lines(history) == Lines(history);
    }
  }

  /** `n` writes into an empty history leave `n` lines, the last write on
      top. */
  lemma WritesMakeLines(es: seq<Entry>)
    requires UrlsSingleLine(es)
    ensures |Lines(Replay("", es))| == |es|
    ensures ParseHistory(Replay("", es)) == Some(Reverse(es))
  {
    assert ParseHistory("") == Some([]);
    ReplayNewestFirst("", [], es);
    assert Reverse(es) + [] == Reverse(es);
  }

  /** When the clock never goes back between writes, the stamps read from
      the top of the history never increase. */
  lemma NewestOnTop(es: seq<Entry>)
    requires UrlsSingleLine(es)
    requires forall a, b :: 0 <= a < b < |es| ==> es[a].stamp <= es[b].stamp
    ensures ParseHistory(Replay("", es)).Some?
    ensures var h := ParseHistory(Replay("", es)).value;
      forall a, b :: 0 <= a < b < |h| ==> h[a].stamp >= h[b].stamp
  {
    WritesMakeLines(es);
  }
}
