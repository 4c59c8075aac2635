/** The text side of the processed-URL log: how `load_processed_urls` reads
    it back into a set, and what `mark_as_processed` appends to it. */
module Ledger {

  /** Python's `str.isspace`, the characters `strip()` removes. */
  predicate IsSpace(c: char) {
    var n := c as int;
    || 9 <= n <= 13 || 28 <= n <= 32 || n == 0x85 || n == 0xA0 || n == 0x1680
    || 0x2000 <= n <= 0x200A || n == 0x2028 || n == 0x2029 || n == 0x202F
    || n == 0x205F || n == 0x3000
  }

  /** Characters that end a line when a file is read in text mode. A "\r\n"
      pair is split twice here, which only adds a blank line. */
  predicate IsLineBreak(c: char) {
    c == '\n' || c == '\r'
  }

  function LStrip(s: string): string {
    if s != [] && IsSpace(s[0]) then LStrip(s[1..]) else s
  }

  function RStrip(s: string): string {
    if s != [] && IsSpace(s[|s| - 1]) then RStrip(s[..|s| - 1]) else s
  }

  /** Python's `str.strip()`. */
  function Strip(s: string): string {
    RStrip(LStrip(s))
  }

  /** The index of the first line break, or |s| when there is none. */
  function FirstBreak(s: string): (i: nat)
    ensures i <= |s|
  {
    if s == [] then 0
    else if IsLineBreak(s[0]) then 0
    else 1 + FirstBreak(s[1..])
  }

  /** `FirstBreak` finds the first line break: none before it, one at it. */
  lemma {:induction false} FirstBreakSpec(s: string)
    ensures forall j :: 0 <= j < FirstBreak(s) ==> !IsLineBreak(s[j])
    ensures FirstBreak(s) < |s| ==> IsLineBreak(s[FirstBreak(s)])
  {
    if s != [] && !IsLineBreak(s[0]) {
      FirstBreakSpec(s[1..]);
      forall j | 1 <= j < FirstBreak(s)
        ensures !IsLineBreak(s[j])
      {
        assert s[j] == s[1..][j - 1];
      }
    }
  }

  /** The lines of a file as iterating over it yields them, each with its
      terminator; the last one may have none. */
  function Lines(s: string): seq<string>
    decreases |s|
  {
    if s == [] then []
    else
      var i := FirstBreak(s);
      if i == |s| then [s] else [s[..i + 1]] + Lines(s[i + 1..])
  }

  /** `{line.strip() for line in lines if line.strip()}`. */
  function StrippedLines(lines: seq<string>): set<string> {
    if lines == [] then {}
    else (if Strip(lines[0]) != "" then {Strip(lines[0])} else {}) + StrippedLines(lines[1..])
  }

  /** The set `load_processed_urls` builds from the log's text. */
  function ParseLog(text: string): set<string> {
    StrippedLines(Lines(text))
  }

  /** What `mark_as_processed` appends for each URL, in order. */
  function LogOf(urls: seq<string>): string {
    if urls == [] then "" else LogOf(urls[..|urls| - 1]) + urls[|urls| - 1] + "\n"
  }

  /** The URLs of a sequence, as a set. */
  function UrlSet(urls: seq<string>): set<string> {
    if urls == [] then {} else UrlSet(urls[..|urls| - 1]) + {urls[|urls| - 1]}
  }

  /** `UrlSet` holds exactly the sequence's elements. */
  lemma {:induction false} UrlSetMembers(urls: seq<string>)
    ensures forall u :: u in UrlSet(urls) <==> u in urls
  {
    if urls != [] {
      UrlSetMembers(urls[..|urls| - 1]);
      assert urls == urls[..|urls| - 1] + [urls[|urls| - 1]];
    }
  }

  /** A log that is empty or ends at a line break; appending starts a new line. */
  predicate EndsLine(text: string) {
    text == [] || IsLineBreak(text[|text| - 1])
  }

  /** A URL that reads back unchanged: not empty, no surrounding whitespace,
      no line break inside. */
  predicate Clean(url: string) {
    && url != []
    && !IsSpace(url[0])
    && !IsSpace(url[|url| - 1])
    && forall i :: 0 <= i < |url| ==> !IsLineBreak(url[i])
  }

  /** A complete first line: no break before its last character, which is one. */
  predicate IsLine(line: string) {
    && line != []
    && IsLineBreak(line[|line| - 1])
    && forall j :: 0 <= j < |line| - 1 ==> !IsLineBreak(line[j])
  }

  /** A text that starts with a complete line splits after it. */
  lemma LinesCons(line: string, rest: string)
    requires IsLine(line)
    ensures Lines(line + rest) == [line] + Lines(rest)
  {
    var s := line + rest;
    var n := |line| - 1;
    var k := FirstBreak(s);
    FirstBreakSpec(s);
    assert forall j :: 0 <= j <= n ==> s[j] == line[j];
    assert k == n;
    assert s[..n + 1] == line;
    assert s[n + 1..] == rest;
  }

  /** A non-empty text that ends at a line break is a complete first line
      followed by a shorter text that also ends at a line break. */
  lemma SplitFirstLine(a: string) returns (line: string, rest: string)
    requires a != [] && EndsLine(a)
    ensures IsLine(line) && EndsLine(rest)
    ensures a == line + rest && |rest| < |a|
  {
    var i := FirstBreak(a);
    FirstBreakSpec(a);
    line, rest := a[..i + 1], a[i + 1..];
    if rest != [] {
      assert rest[|rest| - 1] == a[|a| - 1];
    }
  }

  lemma {:induction false} LinesAppend(a: string, b: string)
    requires EndsLine(a)
    ensures Lines(a + b) == Lines(a) + Lines(b)
    decreases |a|
  {
    if a == [] {
      assert a + b == b;
    } else {
      var line, rest := SplitFirstLine(a);
      assert a + b == line + (rest + b);
      LinesCons(line, rest);
      LinesCons(line, rest + b);
      LinesAppend(rest, b);
    }
  }

  lemma {:induction false} StrippedLinesAppend(a: seq<string>, b: seq<string>)
    ensures StrippedLines(a + b) == StrippedLines(a) + StrippedLines(b)
  {
    if a == [] {
      assert a + b == b;
    } else {
      assert (a + b)[0] == a[0];
      assert (a + b)[1..] == a[1..] + b;
      StrippedLinesAppend(a[1..], b);
    }
  }

  /** Appending to a log that ends at a line break only adds the new lines'
      URLs to what reloading gives. */
  lemma ParseLogAppend(a: string, b: string)
    requires EndsLine(a)
    ensures ParseLog(a + b) == ParseLog(a) + ParseLog(b)
  {
    LinesAppend(a, b);
    StrippedLinesAppend(Lines(a), Lines(b));
  }

  lemma {:induction false} LStripUnchanged(s: string)
    requires s != [] && !IsSpace(s[0])
    ensures LStrip(s) == s
  {
  }

  /** The line written for a clean URL reads back as that URL alone. */
  lemma ParseLogEntry(url: string)
    requires Clean(url)
    ensures ParseLog(url + "\n") == {url}
  {
    var line := url + "\n";
    assert IsLine(line) by {
      assert forall j :: 0 <= j < |line| - 1 ==> line[j] == url[j];
    }
    LinesCons(line, "");
    assert line + "" == line;
    assert Lines(line) == [line];
    LStripUnchanged(line);
    assert line[..|line| - 1] == url;
    assert Strip(line) == RStrip(url);
    assert Strip(line) == url;
    assert [line][1..] == [];
    assert StrippedLines([line]) == {url};
  }

  /** A clean URL marked after a log that ends at a line break is a member
      of the set after a reload, and nothing else is added. */
  lemma ReloadAfterMark(text: string, url: string)
    requires EndsLine(text) && Clean(url)
    ensures ParseLog(text + url + "\n") == ParseLog(text) + {url}
    ensures EndsLine(text + url + "\n")
  {
    assert text + url + "\n" == text + (url + "\n");
    ParseLogAppend(text, url + "\n");
    ParseLogEntry(url);
  }

  /** Every log `mark_as_processed` writes ends at a line break. */
  lemma LogOfEndsLine(urls: seq<string>)
    ensures EndsLine(LogOf(urls))
  {
  }

  /** As written, a log whose last line has no line break swallows the next
      URL: marking "b" after "a" reloads as {"ab"}, holding neither URL. */
  lemma MarkAfterUnterminatedLine()
    ensures !EndsLine("a")
    ensures ParseLog("a" + "b" + "\n") == {"ab"}
    ensures "a" !in ParseLog("a" + "b" + "\n") && "b" !in ParseLog("a" + "b" + "\n")
  {
    assert "a" + "b" + "\n" == "ab" + "\n";
    ParseLogEntry("ab");
  }

  /** A trailing space character does not survive `strip()`. */
  lemma {:induction false} LStripSnocSpace(s: string, c: char)
    requires IsSpace(c)
    ensures LStrip(s + [c]) == if LStrip(s) == [] then [] else LStrip(s) + [c]
  {
    if s == [] {
      assert [] + [c] == [c];
      assert [c][1..] == [];
    } else if IsSpace(s[0]) {
      assert (s + [c])[1..] == s[1..] + [c];
      LStripSnocSpace(s[1..], c);
    }
  }

  lemma StripNewline(s: string)
    ensures Strip(s + "\n") == Strip(s)
  {
    LStripSnocSpace(s, '\n');
    var t := LStrip(s);
    if t != [] {
      assert (t + "\n")[..|t|] == t;
    }
  }

  /** Ending a log that lacks a final line break with one changes nothing
      a reload gives. */
  lemma {:induction false} ParseLogNewline(text: string)
    requires !EndsLine(text)
    ensures ParseLog(text + "\n") == ParseLog(text)
    decreases |text|
  {
    var i := FirstBreak(text);
    FirstBreakSpec(text);
    if i == |text| {
      var line := text + "\n";
      assert IsLine(line) by {
        assert forall j :: 0 <= j < |text| ==> line[j] == text[j];
      }
      LinesCons(line, "");
      assert line + "" == line;
      assert Lines(text) == [text];
      StripNewline(text);
      assert [line][1..] == [] && [text][1..] == [];
    } else {
      var line, rest := text[..i + 1], text[i + 1..];
      assert rest != [] && !EndsLine(rest) by {
        assert i < |text| - 1;
        assert rest[|rest| - 1] == text[|text| - 1];
      }
      assert IsLine(line);
      assert text == line + rest;
      assert text + "\n" == line + (rest + "\n");
      LinesCons(line, rest);
      LinesCons(line, rest + "\n");
      ParseLogNewline(rest);
      StrippedLinesAppend([line], Lines(rest));
      StrippedLinesAppend([line], Lines(rest + "\n"));
    }
  }

  /** The append as evidently intended: a new line is started first when
      the log does not end at one. */
  function AppendEntry(text: string, url: string): string {
    (if EndsLine(text) then text else text + "\n") + url + "\n"
  }

  /** With the corrected append, a reload gives the old set plus the clean
      URL whatever the log's last character. */
  lemma ReloadAfterAppendEntry(text: string, url: string)
    requires Clean(url)
    ensures ParseLog(AppendEntry(text, url)) == ParseLog(text) + {url}
    ensures EndsLine(AppendEntry(text, url))
  {
    if EndsLine(text) {
      ReloadAfterMark(text, url);
    } else {
      ParseLogNewline(text);
      ReloadAfterMark(text + "\n", url);
    }
  }

  /** The lines written for a sequence of clean URLs read back as exactly
      those URLs, and end at a line break. */
  lemma {:induction false} ParseLogOf(urls: seq<string>)
    requires forall k :: 0 <= k < |urls| ==> Clean(urls[k])
    ensures EndsLine(LogOf(urls))
    ensures ParseLog(LogOf(urls)) == UrlSet(urls)
  {
    if urls != [] {
      var init := urls[..|urls| - 1];
      var last := urls[|urls| - 1];
      ParseLogOf(init);
      var x := LogOf(init);
      var y := last + "\n";
      assert LogOf(urls) == x + y;
      ParseLogAppend(x, y);
      ParseLogEntry(last);
    }
  }

  /** Reloading after a sequence of clean URLs was marked yields the old set
      plus exactly those URLs, and the log still ends at a line break. */
  lemma ReloadAfterLog(text: string, urls: seq<string>)
    requires EndsLine(text)
    requires forall k :: 0 <= k < |urls| ==> Clean(urls[k])
    ensures ParseLog(text + LogOf(urls)) == ParseLog(text) + UrlSet(urls)
    ensures EndsLine(text + LogOf(urls))
  {
    ParseLogOf(urls);
    ParseLogAppend(text, LogOf(urls));
    if LogOf(urls) == [] {
      assert text + LogOf(urls) == text;
    }
  }
}
