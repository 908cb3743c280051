/**
 * Front-matter extraction (src/file_handler.rs): the lines between an opening
 * `---` on the first line and the next `---` line, concatenated.
 */
module FileHandler {

  const YamlDelim: string := "---"

  /** Unicode's White_Space property, the characters Rust's `char::is_whitespace` accepts. */
  predicate IsWhitespace(c: char) {
    ('\U{0009}' <= c <= '\U{000D}') || c == '\U{0020}' || c == '\U{0085}' || c == '\U{00A0}'
    || c == '\U{1680}' || ('\U{2000}' <= c <= '\U{200A}') || c == '\U{2028}' || c == '\U{2029}'
    || c == '\U{202F}' || c == '\U{205F}' || c == '\U{3000}'
  }

  predicate NoWhitespace(s: string) {
    forall i :: 0 <= i < |s| ==> !IsWhitespace(s[i])
  }

  /** `remove_whitespace`: the characters of `s` that are not whitespace, in order. */
  function RemoveWhitespace(s: string): (r: string)
    ensures |r| <= |s|
  {
    if s == [] then []
    else (if IsWhitespace(s[0]) then [] else [s[0]]) + RemoveWhitespace(s[1..])
  }

  /** The output holds no whitespace. */
  lemma {:induction false} RemoveWhitespaceClean(s: string)
    ensures NoWhitespace(RemoveWhitespace(s))
  {
    if s != [] {
      RemoveWhitespaceClean(s[1..]);
    }
  }

  /** Removal distributes over concatenation, so the kept characters stay in order. */
  lemma {:induction false} RemoveWhitespaceAppend(a: string, b: string)
    ensures RemoveWhitespace(a + b) == RemoveWhitespace(a) + RemoveWhitespace(b)
  {
    if a != [] {
      assert (a + b)[1..] == a[1..] + b;
      RemoveWhitespaceAppend(a[1..], b);
    } else {
      assert a + b == b;
    }
  }

  /** A string without whitespace is left unchanged. */
  lemma {:induction false} RemoveWhitespaceKeeps(s: string)
    requires NoWhitespace(s)
    ensures RemoveWhitespace(s) == s
  {
    if s != [] {
      RemoveWhitespaceKeeps(s[1..]);
    }
  }

  lemma RemoveWhitespaceIdempotent(s: string)
    ensures RemoveWhitespace(RemoveWhitespace(s)) == RemoveWhitespace(s)
  {
    RemoveWhitespaceClean(s);
    RemoveWhitespaceKeeps(RemoveWhitespace(s));
  }

  /** Every non-whitespace character keeps its number of occurrences; whitespace ones drop to none. */
  lemma {:induction false} RemoveWhitespaceCounts(s: string, c: char)
    ensures multiset(RemoveWhitespace(s))[c] == if IsWhitespace(c) then 0 else multiset(s)[c]
  {
    if s != [] {
      assert s == [s[0]] + s[1..];
      RemoveWhitespaceCounts(s[1..], c);
    }
  }

  /** Exactly three dashes, and every other character whitespace. */
  predicate DashesAmidWhitespace(line: string) {
    multiset(line)['-'] == 3 && forall i :: 0 <= i < |line| && line[i] != '-' ==> IsWhitespace(line[i])
  }

  /** The delimiter test of `get_yaml_header`: the line is `---` once all whitespace is removed. */
  predicate IsDelimiter(line: string): (r: bool)
    ensures r ==> |line| >= |YamlDelim|
  {
    RemoveWhitespace(line) == YamlDelim
  }

  /** A delimiter holds three dashes and otherwise only whitespace. */
  lemma DelimiterChars(line: string)
    requires IsDelimiter(line)
    ensures DashesAmidWhitespace(line)
  {
    RemoveWhitespaceCounts(line, '-');
    forall i | 0 <= i < |line| && line[i] != '-'
      ensures IsWhitespace(line[i])
    {
      RemoveWhitespaceCounts(line, line[i]);
    }
  }

  /** Removing the whitespace from three dashes amid whitespace leaves the characters of `---`. */
  lemma CleanedDashes(line: string)
    requires DashesAmidWhitespace(line)
    ensures multiset(RemoveWhitespace(line)) == multiset(YamlDelim)
  {
    forall c
      ensures multiset(RemoveWhitespace(line))[c] == multiset(YamlDelim)[c]
    {
      RemoveWhitespaceCounts(line, c);
      if c != '-' && !IsWhitespace(c) {
        assert c !in line;
      }
    }
  }

  /** The only string with the characters of `---` is `---`. */
  lemma DashesOnly(r: string)
    requires multiset(r) == multiset(YamlDelim)
    ensures r == YamlDelim
  {
    assert |r| == |multiset(r)| == 3;
    forall i | 0 <= i < 3
      ensures r[i] == YamlDelim[i]
    {
      assert r[i] in multiset(r);
    }
  }

  /** Three dashes amid whitespace form a delimiter. */
  lemma DelimiterFromChars(line: string)
    requires DashesAmidWhitespace(line)
    ensures IsDelimiter(line)
  {
    CleanedDashes(line);
    DashesOnly(RemoveWhitespace(line));
  }

  /** A line is a delimiter exactly when it holds three dashes and otherwise only whitespace. */
  lemma DelimiterShape(line: string)
    ensures IsDelimiter(line) <==> DashesAmidWhitespace(line)
  {
    if IsDelimiter(line) {
      DelimiterChars(line);
    }
    if DashesAmidWhitespace(line) {
      DelimiterFromChars(line);
    }
  }

  lemma RemoveWhitespaceChar(c: char)
    ensures RemoveWhitespace([c]) == if IsWhitespace(c) then [] else [c]
  {
    assert [c][1..] == [];
  }

  predicate AllWhitespace(w: string) {
    forall i :: 0 <= i < |w| ==> IsWhitespace(w[i])
  }

  lemma {:induction false} RemoveAllWhitespace(w: string)
    requires AllWhitespace(w)
    ensures RemoveWhitespace(w) == []
  {
    if w != [] {
      RemoveAllWhitespace(w[1..]);
    }
  }

  /** Whitespace before, between and after the three dashes is ignored by the delimiter test. */
  lemma DelimiterIgnoresWhitespace(w0: string, w1: string, w2: string, w3: string)
    requires AllWhitespace(w0) && AllWhitespace(w1) && AllWhitespace(w2) && AllWhitespace(w3)
    ensures IsDelimiter(w0 + "-" + w1 + "-" + w2 + "-" + w3)
  {
    RemoveAllWhitespace(w0);
    RemoveAllWhitespace(w1);
    RemoveAllWhitespace(w2);
    RemoveAllWhitespace(w3);
    var d := "-";
    RemoveWhitespaceChar('-');
    var s1 := w0 + d;
    RemoveWhitespaceAppend(w0, d);
    assert RemoveWhitespace(s1) == d;
    var s2 := s1 + w1;
    RemoveWhitespaceAppend(s1, w1);
    var s3 := s2 + d;
    RemoveWhitespaceAppend(s2, d);
    assert RemoveWhitespace(s3) == d + d;
    var s4 := s3 + w2;
    RemoveWhitespaceAppend(s3, w2);
    var s5 := s4 + d;
    RemoveWhitespaceAppend(s4, d);
    assert RemoveWhitespace(s5) == d + d + d;
    RemoveWhitespaceAppend(s5, w3);
    assert d + d + d == YamlDelim;
  }

  lemma DelimiterPlain()
    ensures IsDelimiter("---")
  {
    DelimiterIgnoresWhitespace("", "", "", "");
    assert "" + "-" + "" + "-" + "" + "-" + "" == "---";
  }

  /** `  ---  ` and `- - -` are delimiters. */
  lemma DelimiterAccepts()
    ensures IsDelimiter("  ---  ") && IsDelimiter("- - -")
  {
    DelimiterIgnoresWhitespace("  ", "", "", "  ");
    assert "  " + "-" + "" + "-" + "" + "-" + "  " == "  ---  ";
    DelimiterIgnoresWhitespace("", " ", " ", "");
    assert "" + "-" + " " + "-" + " " + "-" + "" == "- - -";
  }

  /** More or fewer dashes, or other text, is not a delimiter. */
  lemma DelimiterRejects()
    ensures !IsDelimiter("----") && !IsDelimiter("--") && !IsDelimiter("") && !IsDelimiter("rest")
  {
    RemoveWhitespaceKeeps("----");
    RemoveWhitespaceKeeps("--");
    RemoveWhitespaceKeeps("rest");
  }

  /** One item of `BufRead::lines`: a line without its terminator, or a read error. */
  datatype LineResult = Line(text: string) | ReadError

  predicate IsBodyLine(l: LineResult) {
    l.Line? && !IsDelimiter(l.text)
  }

  /** The leading run of successfully read non-delimiter lines. */
  function Body(lines: seq<LineResult>): (b: seq<string>)
    ensures |b| <= |lines|
    ensures forall j :: 0 <= j < |b| ==> IsBodyLine(lines[j]) && lines[j].text == b[j]
    ensures |b| < |lines| ==> !IsBodyLine(lines[|b|])
  {
    if lines == [] || !IsBodyLine(lines[0]) then []
    else [lines[0].text] + Body(lines[1..])
  }

  /** The strings of `ss` joined without separator. */
  function Concat(ss: seq<string>): string {
    if ss == [] then [] else Concat(ss[..|ss| - 1]) + ss[|ss| - 1]
  }

  /** Total number of characters of the lines read successfully. */
  function TotalLength(lines: seq<LineResult>): nat {
    if lines == [] then 0
    else (if lines[0].Line? then |lines[0].text| else 0) + TotalLength(lines[1..])
  }

  predicate Opens(lines: seq<LineResult>) {
    |lines| > 0 && lines[0].Line? && IsDelimiter(lines[0].text)
  }

  /**
   * The header as a function of the lines: when the first line is a
   * delimiter, the body lines that follow it, concatenated; otherwise empty.
   */
  function YamlHeader(lines: seq<LineResult>): string {
    if Opens(lines) then Concat(Body(lines[1..])) else ""
  }

  /** `get_yaml_header`: the scan with the `copy_yaml` flag and the accumulating buffer. */
  method GetYamlHeader(lines: seq<LineResult>) returns (header: string)
    ensures header == YamlHeader(lines)
  {
    ghost var body := if Opens(lines) then Body(lines[1..]) else [];
    ghost var k := |body|;
    header := [];
    var copyYaml := false;
    var i := 0;
    while i < |lines|
      invariant 0 <= i <= |lines|
      invariant i == 0 ==> header == [] && !copyYaml
      invariant i > 0 ==> Opens(lines)
      invariant i > 0 ==> (copyYaml <==> i <= 1 + k)
      invariant i > 0 ==> header == Concat(body[..if i - 1 < k then i - 1 else k])
      invariant forall j :: 1 + k <= j < i ==> lines[j].Line? && IsDelimiter(lines[j].text)
      decreases |lines| - i
    {
      match lines[i] {
        case Line(l) =>
          if IsDelimiter(l) {
            if i == 0 {
              copyYaml := true;
            } else {
              copyYaml := false;
            }
          } else {
            if copyYaml {
              assert body[..i] == body[..i - 1] + [l];
              header := header + l;
            } else {
              break;
            }
          }
        case ReadError =>
          break;
      }
      i := i + 1;
    }
    assert i > 0 ==> body[..k] == body;
  }

  /** The lines `ss`, each read successfully. */
  function Lines(ss: seq<string>): (ls: seq<LineResult>)
    ensures |ls| == |ss|
  {
    if ss == [] then [] else [Line(ss[0])] + Lines(ss[1..])
  }

  lemma SplitFirst<T>(x: T, a: seq<T>, b: seq<T>, c: seq<T>)
    ensures ([x] + a + b + c)[0] == x
    ensures ([x] + a + b + c)[1..] == a + b + c
  {
  }

  lemma {:induction false} BodyOfLines(body: seq<string>)
    requires forall j :: 0 <= j < |body| ==> !IsDelimiter(body[j])
    ensures Body(Lines(body)) == body
  {
    if body != [] {
      BodyOfLines(body[1..]);
    }
  }

  lemma {:induction false} ConcatCons(x: string, ss: seq<string>)
    ensures Concat([x] + ss) == x + Concat(ss)
  {
    if ss == [] {
      assert [x] + ss == [x];
      assert [x][..0] == [];
    } else {
      var ss' := ss[..|ss| - 1];
      assert ([x] + ss)[..|ss|] == [x] + ss';
      ConcatCons(x, ss');
    }
  }

  /** A non-delimiter first line, or no line at all, gives the empty header. */
  lemma HeaderNeedsOpening(lines: seq<LineResult>)
    requires lines == [] || lines[0].ReadError? || !IsDelimiter(lines[0].text)
    ensures YamlHeader(lines) == ""
  {
  }

  lemma {:induction false} BodyBeforeClose(body: seq<string>, close: string, rest: seq<LineResult>)
    requires forall j :: 0 <= j < |body| ==> !IsDelimiter(body[j])
    requires IsDelimiter(close)
    ensures Body(Lines(body) + [Line(close)] + rest) == body
  {
    var ls := Lines(body) + [Line(close)] + rest;
    if body == [] {
      assert ls[0] == Line(close);
    } else {
      assert ls[0] == Line(body[0]);
      assert ls[1..] == Lines(body[1..]) + [Line(close)] + rest;
      BodyBeforeClose(body[1..], close, rest);
    }
  }

  /**
   * With an opening delimiter, body lines and a closing delimiter, the header
   * is the body concatenated, whatever follows the closing delimiter.
   */
  lemma HeaderIgnoresRest(open: string, body: seq<string>, close: string, rest: seq<LineResult>)
    requires IsDelimiter(open) && IsDelimiter(close)
    requires forall j :: 0 <= j < |body| ==> !IsDelimiter(body[j])
    ensures YamlHeader([Line(open)] + Lines(body) + [Line(close)] + rest) == Concat(body)
  {
    SplitFirst(Line(open), Lines(body), [Line(close)], rest);
    BodyBeforeClose(body, close, rest);
  }

  /** Without a closing delimiter every line after the opening one is copied. */
  lemma HeaderUnclosed(open: string, body: seq<string>)
    requires IsDelimiter(open)
    requires forall j :: 0 <= j < |body| ==> !IsDelimiter(body[j])
    ensures YamlHeader([Line(open)] + Lines(body)) == Concat(body)
  {
    SplitFirst(Line(open), Lines(body), [], []);
    assert [Line(open)] + Lines(body) + [] + [] == [Line(open)] + Lines(body);
    BodyOfLines(body);
  }

  lemma {:induction false} BodyStopsAtError(before: seq<LineResult>, after: seq<LineResult>)
    ensures Body(before + [ReadError] + after) == Body(before)
  {
    var ls := before + [ReadError] + after;
    if before != [] {
      assert ls[0] == before[0];
      assert ls[1..] == before[1..] + [ReadError] + after;
      BodyStopsAtError(before[1..], after);
    }
  }

  /** A read error ends the scan and keeps what was collected before it. */
  lemma HeaderStopsAtError(before: seq<LineResult>, after: seq<LineResult>)
    ensures YamlHeader(before + [ReadError] + after) == YamlHeader(before)
  {
    var ls := before + [ReadError] + after;
    if before != [] {
      assert ls[0] == before[0];
      if Opens(before) {
        assert ls[1..] == before[1..] + [ReadError] + after;
        BodyStopsAtError(before[1..], after);
      }
    }
  }

  lemma {:induction false} BodyLength(lines: seq<LineResult>)
    ensures |Concat(Body(lines))| <= TotalLength(lines)
  {
    if lines != [] && IsBodyLine(lines[0]) {
      ConcatCons(lines[0].text, Body(lines[1..]));
      BodyLength(lines[1..]);
    }
  }

  /** The header is never longer than the input it was read from. */
  lemma HeaderLength(lines: seq<LineResult>)
    ensures |YamlHeader(lines)| <= TotalLength(lines)
  {
    if Opens(lines) {
      BodyLength(lines[1..]);
    }
  }

  lemma SalutIsNotDelimiter()
    ensures !IsDelimiter("salut")
  {
    assert NoWhitespace("salut");
    RemoveWhitespaceKeeps("salut");
  }

  /** The test `get_yaml_header_basic`: `---`, `salut`, `---`, `rest` gives `salut`. */
  lemma HeaderExample()
    ensures YamlHeader([Line("---"), Line("salut"), Line("---"), Line("rest")]) == "salut"
  {
    DelimiterPlain();
    SalutIsNotDelimiter();
    ConcatCons("salut", []);
    assert ["salut"] + [] == ["salut"];
    assert Lines(["salut"]) == [Line("salut")];
    assert [Line("---")] + Lines(["salut"]) + [Line("---")] + [Line("rest")]
        == [Line("---"), Line("salut"), Line("---"), Line("rest")];
    HeaderIgnoresRest("---", ["salut"], "---", [Line("rest")]);
  }
}
