/** The avalanche-bulletin danger-level parser of the mountain view: it cuts the
    danger-estimate section out of the bulletin text, reads one record per "area: text"
    line (continued by the following colon-free lines) and collects the `(d)` levels. */
module WeatherMountainView {
  import opened Wrappers
  import opened JsStrings
  import opened JsValue

  const DangerHeading: string := "1.- Estimación del nivel de peligro:"
  const SnowpackHeading: string := "2.- Estado del manto"

  /** One area record: the massif, its free text and its danger levels. */
  datatype AreaEstimate = AreaEstimate(area: string, description: string, levels: seq<nat>)

  // ---------------------------------------------------------------------------------------
  // Danger levels inside a piece of text: the matches of /\((\d)\)/g

  /** A `(d)` match, one ASCII digit between parentheses, starts at `i`. */
  ghost predicate LevelAt(s: string, i: int)
  {
    0 <= i && i + 3 <= |s| && s[i] == '(' && IsDigit(s[i + 1]) && s[i + 2] == ')'
  }

  /** The digits of the `(d)` matches in `s`, left to right, as numbers. */
  function Levels(s: string): (r: seq<nat>)
    ensures forall k :: 0 <= k < |r| ==> r[k] <= 9
  {
    if |s| < 3 then []
    else if s[0] == '(' && IsDigit(s[1]) && s[2] == ')' then [DigitValue(s[1])] + Levels(s[3..])
    else Levels(s[1..])
  }

  /** A level is found exactly when some `(d)` match carries it. */
  lemma LevelsExactly(s: string, d: nat)
    ensures d in Levels(s) <==> exists i :: LevelAt(s, i) && DigitValue(s[i + 1]) == d
  {
    if d in Levels(s) {
      LevelsSound(s, d);
    }
    if exists i :: LevelAt(s, i) && DigitValue(s[i + 1]) == d {
      var i :| LevelAt(s, i) && DigitValue(s[i + 1]) == d;
      LevelsComplete(s, i);
    }
  }

  lemma {:induction false} LevelsSound(s: string, d: nat)
    requires d in Levels(s)
    ensures exists i :: LevelAt(s, i) && DigitValue(s[i + 1]) == d
    decreases |s|
  {
    var skip := if s[0] == '(' && IsDigit(s[1]) && s[2] == ')' then 3 else 1;
    if !(skip == 3 && d == DigitValue(s[1])) {
      var t := s[skip..];
      LevelsSound(t, d);
      var i :| LevelAt(t, i) && DigitValue(t[i + 1]) == d;
      assert LevelAt(s, i + skip) && s[i + skip + 1] == t[i + 1];
    } else {
      assert LevelAt(s, 0);
    }
  }

  lemma {:induction false} LevelsComplete(s: string, i: int)
    requires LevelAt(s, i)
    ensures DigitValue(s[i + 1]) in Levels(s)
    decreases |s|
  {
    var skip := if s[0] == '(' && IsDigit(s[1]) && s[2] == ')' then 3 else 1;
    if i >= skip {
      var t := s[skip..];
      assert LevelAt(t, i - skip) && t[i - skip + 1] == s[i + 1];
      LevelsComplete(t, i - skip);
    }
  }

  /** Joining two pieces with a space neither creates nor breaks a `(d)` match. */
  lemma {:induction false} LevelsJoin(a: string, b: string)
    ensures Levels(a + " " + b) == Levels(a) + Levels(b)
    decreases |a|
  {
    var s := a + " " + b;
    if |a| == 0 {
      assert s[1..] == b;
    } else if |s| >= 3 && s[0] == '(' && IsDigit(s[1]) && s[2] == ')' {
      assert |a| >= 3;
      assert s[3..] == a[3..] + " " + b;
      LevelsJoin(a[3..], b);
    } else {
      assert s[1..] == a[1..] + " " + b;
      LevelsJoin(a[1..], b);
    }
  }

  // ---------------------------------------------------------------------------------------
  // Deduplication and descending order: [...new Set(levels)].sort((a, b) => b - a)

  ghost predicate StrictlyDescending(xs: seq<nat>)
  {
    forall i, j :: 0 <= i < j < |xs| ==> xs[i] > xs[j]
  }

  function InsertDescending(x: nat, xs: seq<nat>): (r: seq<nat>)
    requires StrictlyDescending(xs)
    ensures StrictlyDescending(r)
    ensures forall v :: v in r <==> v == x || v in xs
  {
    if |xs| == 0 then [x]
    else if x > xs[0] then [x] + xs
    else if x == xs[0] then xs
    else
      var rest := InsertDescending(x, xs[1..]);
      assert forall j :: 0 <= j < |rest| ==> rest[j] < xs[0] by {
        forall j | 0 <= j < |rest| ensures rest[j] < xs[0] {
          assert rest[j] in rest;
          if rest[j] != x {
            var m :| 0 <= m < |xs[1..]| && xs[1..][m] == rest[j];
            assert xs[m + 1] == rest[j];
          }
        }
      }
      [xs[0]] + rest
  }

  /** The distinct values of `xs`, highest first. */
  function DistinctDescending(xs: seq<nat>): (r: seq<nat>)
    ensures StrictlyDescending(r)
    ensures forall v :: v in r <==> v in xs
  {
    if |xs| == 0 then []
    else
      var init := xs[..|xs| - 1];
      assert forall v :: v in xs <==> v in init || v == xs[|xs| - 1] by {
        assert xs == init + [xs[|xs| - 1]];
      }
      InsertDescending(xs[|xs| - 1], DistinctDescending(init))
  }

  // ---------------------------------------------------------------------------------------
  // The line walk

  /** The massif of an "area: text" line: the trimmed text before the first colon. */
  function AreaOf(line: string): string
  {
    Trim(Split(line, ':')[0])
  }

  /** The free text of an "area: text" line: the trimmed rest, later colons kept. */
  function DescriptionOf(line: string): string
  {
    Trim(Join(Split(line, ':')[1..], ':'))
  }

  /** The destructuring `[area, ...descParts] = line.split(':')` cuts at the first colon. */
  lemma OpeningLineFields(line: string, i: nat)
    requires i < |line| && line[i] == ':' && ':' !in line[..i]
    ensures AreaOf(line) == Trim(line[..i])
    ensures DescriptionOf(line) == Trim(line[i + 1..])
  {
    SplitAtFirst(line, ':', i);
  }

  /** The record a colon-containing line opens. */
  function Open(line: string): AreaEstimate
  {
    AreaEstimate(AreaOf(line), DescriptionOf(line), Levels(DescriptionOf(line)))
  }

  /** The open record extended by a trimmed continuation line. */
  function Extend(current: AreaEstimate, cleanLine: string): AreaEstimate
  {
    current.(description := current.description + " " + cleanLine,
             levels := current.levels + Levels(cleanLine))
  }

  /** What the loop body makes of one line: it opens a record (it has a colon), it may
      continue the open record (colon-free, not blank once trimmed), or it is skipped. */
  datatype LineKind = Opens(record: AreaEstimate) | Continues(cleanLine: string) | Skipped

  function Classify(line: string): (k: LineKind)
    ensures k.Opens? <==> ':' in line
    ensures k.Skipped? <==> ':' !in line && Trim(line) == ""
  {
    if ':' in line then Opens(Open(line))
    else if Trim(line) != "" then Continues(Trim(line))
    else Skipped
  }

  /** The lines, classified one by one. */
  function Kinds(lines: seq<string>): (r: seq<LineKind>)
    ensures |r| == |lines|
  {
    if |lines| == 0 then [] else Kinds(lines[..|lines| - 1]) + [Classify(lines[|lines| - 1])]
  }

  /** One turn of the loop. The open record is always the last one pushed, so continuing
      it replaces the last element; with no open record a continuation is dropped. */
  function Apply(results: seq<AreaEstimate>, k: LineKind): seq<AreaEstimate>
  {
    match k
    case Opens(record) => results + [record]
    case Continues(cleanLine) =>
      if |results| > 0 then results[..|results| - 1] + [Extend(results[|results| - 1], cleanLine)]
      else results
    case Skipped => results
  }

  function Walk(kinds: seq<LineKind>): seq<AreaEstimate>
  {
    if |kinds| == 0 then [] else Apply(Walk(kinds[..|kinds| - 1]), kinds[|kinds| - 1])
  }

  /** The records the loop has built after walking `lines`. */
  function Scan(lines: seq<string>): seq<AreaEstimate>
  {
    Walk(Kinds(lines))
  }

  lemma ScanSnoc(lines: seq<string>, line: string)
    ensures Scan(lines + [line]) == Apply(Scan(lines), Classify(line))
  {
    assert (lines + [line])[..|lines|] == lines;
    var ks := Kinds(lines);
    assert (ks + [Classify(line)])[..|ks|] == ks;
  }

  /** The lines that contain a colon, in order. */
  function ColonLines(lines: seq<string>): seq<string>
  {
    if |lines| == 0 then []
    else ColonLines(lines[..|lines| - 1])
         + (if ':' in lines[|lines| - 1] then [lines[|lines| - 1]] else [])
  }

  /** The areas of the colon lines, in order. */
  function ColonAreas(lines: seq<string>): (r: seq<string>)
    ensures |r| == |ColonLines(lines)|
  {
    if |lines| == 0 then []
    else
      var last := lines[|lines| - 1];
      ColonAreas(lines[..|lines| - 1]) + (if ':' in last then [AreaOf(last)] else [])
  }

  lemma ColonAreasSnoc(lines: seq<string>, line: string)
    ensures ColonAreas(lines + [line]) == ColonAreas(lines) + (if ':' in line then [AreaOf(line)] else [])
  {
    assert (lines + [line])[..|lines|] == lines;
  }

  /** The names of a list of records, in order. */
  function AreaNames(es: seq<AreaEstimate>): (r: seq<string>)
    ensures |r| == |es|
  {
    if |es| == 0 then [] else AreaNames(es[..|es| - 1]) + [es[|es| - 1].area]
  }

  lemma AreaNamesSnoc(es: seq<AreaEstimate>, x: AreaEstimate)
    ensures AreaNames(es + [x]) == AreaNames(es) + [x.area]
  {
    assert (es + [x])[..|es|] == es;
  }

  /** Continuing the open record keeps every record's area. */
  lemma ApplyNames(results: seq<AreaEstimate>, k: LineKind)
    ensures AreaNames(Apply(results, k)) == AreaNames(results) + (if k.Opens? then [k.record.area] else [])
  {
    match k
    case Opens(record) =>
      AreaNamesSnoc(results, record);
    case Continues(cleanLine) =>
      if |results| > 0 {
        var front, cur := results[..|results| - 1], results[|results| - 1];
        assert results == front + [cur];
        AreaNamesSnoc(front, cur);
        AreaNamesSnoc(front, Extend(cur, cleanLine));
      }
    case Skipped =>
  }

  /** There is one record per colon line, carrying that line's area, in line order. */
  lemma {:induction false} ScanAreas(lines: seq<string>)
    ensures AreaNames(Scan(lines)) == ColonAreas(lines)
    ensures |Scan(lines)| == |ColonLines(lines)|
    decreases |lines|
  {
    if |lines| > 0 {
      var init, line := lines[..|lines| - 1], lines[|lines| - 1];
      assert lines == init + [line];
      ScanSnoc(init, line);
      ColonAreasSnoc(init, line);
      ScanAreas(init);
      ApplyNames(Scan(init), Classify(line));
    }
  }

  /** Each record's levels are exactly the `(d)` digits of its whole description, that is,
      of its opening text and of every continuation line, in order. */
  lemma {:induction false} ScanLevels(lines: seq<string>)
    ensures forall k :: 0 <= k < |Scan(lines)| ==>
              Scan(lines)[k].levels == Levels(Scan(lines)[k].description)
    decreases |lines|
  {
    if |lines| > 0 {
      var init, line := lines[..|lines| - 1], lines[|lines| - 1];
      assert lines == init + [line];
      ScanSnoc(init, line);
      ScanLevels(init);
      var prev := Scan(init);
      if Classify(line).Continues? && |prev| > 0 {
        LevelsJoin(prev[|prev| - 1].description, Classify(line).cleanLine);
      }
    }
  }

  /** Lines that are blank and colon-free leave the records untouched. */
  lemma {:induction false} BlankLinesIgnored(lines: seq<string>, blank: seq<string>)
    requires forall k :: 0 <= k < |blank| ==> ':' !in blank[k] && Trim(blank[k]) == ""
    ensures Scan(lines + blank) == Scan(lines)
    decreases |blank|
  {
    if |blank| == 0 {
      assert lines + blank == lines;
    } else {
      var init, last := blank[..|blank| - 1], blank[|blank| - 1];
      assert lines + blank == (lines + init) + [last];
      ScanSnoc(lines + init, last);
      assert Classify(last).Skipped?;
      BlankLinesIgnored(lines, init);
    }
  }

  /** Colon-free lines before the first "area:" line open nothing and are dropped. */
  lemma {:induction false} LeadingProseIgnored(prose: seq<string>)
    requires forall k :: 0 <= k < |prose| ==> ':' !in prose[k]
    ensures Scan(prose) == []
    decreases |prose|
  {
    if |prose| > 0 {
      var init, line := prose[..|prose| - 1], prose[|prose| - 1];
      assert prose == init + [line];
      ScanSnoc(init, line);
      assert !Classify(line).Opens?;
      LeadingProseIgnored(init);
    }
  }

  // ---------------------------------------------------------------------------------------
  // The final map and filter

  /** A record with its levels deduplicated and sorted, or `[0]` when it has none. */
  function Finalize(item: AreaEstimate): (r: AreaEstimate)
    ensures r.area == item.area && r.description == item.description
    ensures |r.levels| >= 1 && StrictlyDescending(r.levels)
    ensures |item.levels| == 0 ==> r.levels == [0]
    ensures |item.levels| > 0 ==> forall v :: v in r.levels <==> v in item.levels
  {
    item.(levels := if |item.levels| > 0 then DistinctDescending(item.levels) else [0])
  }

  /** `.map(Finalize).filter(item => item.area)`. */
  function Finish(raw: seq<AreaEstimate>): (r: seq<AreaEstimate>)
    ensures |r| <= |raw|
  {
    if |raw| == 0 then []
    else
      var init, last := raw[..|raw| - 1], raw[|raw| - 1];
      Finish(init) + (if last.area != "" then [Finalize(last)] else [])
  }

  /** Every surviving record is the finalized form of a raw record with a non-blank area. */
  lemma {:induction false} FinishItems(raw: seq<AreaEstimate>)
    ensures forall e :: e in Finish(raw) ==> e.area != "" && exists q :: q in raw && e == Finalize(q)
    decreases |raw|
  {
    if |raw| > 0 {
      var init, last := raw[..|raw| - 1], raw[|raw| - 1];
      FinishItems(init);
      assert forall q :: q in init ==> q in raw;
    }
  }

  /** The names that are not blank, in order. */
  function NonBlank(names: seq<string>): (r: seq<string>)
    ensures |r| <= |names|
  {
    if |names| == 0 then []
    else
      var last := names[|names| - 1];
      NonBlank(names[..|names| - 1]) + (if last != "" then [last] else [])
  }

  lemma FinishSnoc(raw: seq<AreaEstimate>, x: AreaEstimate)
    ensures Finish(raw + [x]) == Finish(raw) + (if x.area != "" then [Finalize(x)] else [])
  {
    assert (raw + [x])[..|raw|] == raw;
  }

  lemma NonBlankSnoc(names: seq<string>, x: string)
    ensures NonBlank(names + [x]) == NonBlank(names) + (if x != "" then [x] else [])
  {
    assert (names + [x])[..|names|] == names;
  }

  /** Dropping the records with a blank area drops exactly the blank names. */
  lemma {:induction false} FinishNames(raw: seq<AreaEstimate>)
    ensures AreaNames(Finish(raw)) == NonBlank(AreaNames(raw))
    decreases |raw|
  {
    if |raw| > 0 {
      var init, last := raw[..|raw| - 1], raw[|raw| - 1];
      assert raw == init + [last];
      FinishSnoc(init, last);
      AreaNamesSnoc(init, last);
      NonBlankSnoc(AreaNames(init), last.area);
      FinishNames(init);
      if last.area != "" {
        AreaNamesSnoc(Finish(init), Finalize(last));
        assert AreaNames(Finish(raw)) == AreaNames(Finish(init)) + [last.area];
      } else {
        assert Finish(raw) == Finish(init);
      }
    }
  }

  /** The surviving records are those of the colon lines whose area is not blank, in line order. */
  lemma FinishedAreas(lines: seq<string>)
    ensures AreaNames(Finish(Scan(lines))) == NonBlank(ColonAreas(lines))
  {
    ScanAreas(lines);
    FinishNames(Scan(lines));
  }

  /** As written, a colon line whose area is blank still opens a record: the colon-free
      lines after it extend that record and vanish with it when blank areas are dropped. */
  lemma BlankAreaSwallowsContinuations(lines: seq<string>, opener: string, more: seq<string>)
    requires ':' in opener && AreaOf(opener) == ""
    requires forall k :: 0 <= k < |more| ==> ':' !in more[k]
    ensures Finish(Scan(lines + [opener] + more)) == Finish(Scan(lines))
  {
    BlankAreaStaysLast(lines, opener, more);
    DropBlankLast(Scan(lines + [opener] + more), Scan(lines));
  }

  lemma DropBlankLast(s: seq<AreaEstimate>, front: seq<AreaEstimate>)
    requires |s| == |front| + 1 && s[..|s| - 1] == front && s[|s| - 1].area == ""
    ensures Finish(s) == Finish(front)
  {
  }

  /** The record a blank-area opener starts stays the last one, behind the earlier records. */
  lemma {:induction false} BlankAreaStaysLast(lines: seq<string>, opener: string, more: seq<string>)
    requires ':' in opener && AreaOf(opener) == ""
    requires forall k :: 0 <= k < |more| ==> ':' !in more[k]
    ensures var s := Scan(lines + [opener] + more);
      |s| == |Scan(lines)| + 1 && s[..|s| - 1] == Scan(lines) && s[|s| - 1].area == ""
    decreases |more|
  {
    if |more| == 0 {
      ScanSnoc(lines, opener);
      assert lines + [opener] + more == lines + [opener];
    } else {
      var init, line := more[..|more| - 1], more[|more| - 1];
      var pre := lines + [opener] + init;
      assert lines + [opener] + more == pre + [line];
      ScanSnoc(pre, line);
      assert !Classify(line).Opens?;
      BlankAreaStaysLast(lines, opener, init);
    }
  }

  // ---------------------------------------------------------------------------------------
  // The whole parser

  /** `[s, e)` is the danger-estimate section of `text`: `s` is the first danger heading
      and `e` the first snowpack heading at or after it, or the end of the text. */
  ghost predicate DangerBounds(text: string, s: int, e: int)
  {
    && 0 <= s <= e <= |text|
    && OccursAt(text, DangerHeading, s) && (forall i :: i < s ==> !OccursAt(text, DangerHeading, i))
    && (e == |text| || OccursAt(text, SnowpackHeading, e))
    && (forall i :: s <= i < e ==> !OccursAt(text, SnowpackHeading, i))
  }

  /** The danger-estimate section of the bulletin, or `None` when there is no danger heading. */
  function DangerWindow(text: string): (r: Option<string>)
    ensures r.None? <==> forall i :: !OccursAt(text, DangerHeading, i)
    ensures r.Some? ==> exists s, e :: DangerBounds(text, s, e) && r.value == text[s..e]
  {
    var sectionStart := IndexOf(text, DangerHeading);
    if sectionStart == -1 then None
    else
      var nextSectionStart := IndexOfFrom(text, SnowpackHeading, sectionStart);
      var sectionEnd := if nextSectionStart != -1 then nextSectionStart else |text|;
      assert DangerBounds(text, sectionStart, sectionEnd);
      Some(text[sectionStart..sectionEnd])
  }

  /** `section.split('\n').slice(2)`: the heading line and the line after it are skipped. */
  function BodyLines(section: string): (r: seq<string>)
    ensures forall k :: 0 <= k < |r| ==> '\n' !in r[k]
  {
    var parts := Split(section, '\n');
    if |parts| <= 2 then [] else parts[2..]
  }

  /** With line breaks at `i` and `j`, the first two of the section, the body is exactly the
      lines of the text after the second break: joined back it is that text. */
  lemma BodyAfterTwoBreaks(section: string, i: nat, j: nat)
    requires i < j < |section| && section[i] == '\n' && section[j] == '\n'
    requires '\n' !in section[..i] && '\n' !in section[i + 1..j]
    ensures BodyLines(section) == Split(section[j + 1..], '\n')
    ensures Join(BodyLines(section), '\n') == section[j + 1..]
  {
    SplitCons(section, '\n', i);
    var t := section[i + 1..];
    assert t[j - i - 1] == '\n' && t[..j - i - 1] == section[i + 1..j];
    SplitCons(t, '\n', j - i - 1);
    assert t[j - i..] == section[j + 1..];
    assert Split(section, '\n')[2..] == Split(section[j + 1..], '\n');
  }

  /** A section of one or two lines has no body. */
  lemma ShortSectionNoBody(section: string, i: nat)
    ensures '\n' !in section ==> BodyLines(section) == []
    ensures (i < |section| && section[i] == '\n' && '\n' !in section[..i]
             && '\n' !in section[i + 1..]) ==> BodyLines(section) == []
  {
    if '\n' !in section {
      SplitNoSep(section, '\n');
    }
    if i < |section| && section[i] == '\n' && '\n' !in section[..i] && '\n' !in section[i + 1..] {
      SplitCons(section, '\n', i);
      SplitNoSep(section[i + 1..], '\n');
    }
  }

  /** What `parseDangerLevels` returns, `None` standing for `null`. */
  function DangerLevels(text: string): Option<seq<AreaEstimate>>
  {
    if text == "" then None
    else match DangerWindow(text)
      case None => None
      case Some(section) => Some(Finish(Scan(BodyLines(section))))
  }

  /** `parseDangerLevels(text)`. */
  method ParseDangerLevels(text: string) returns (r: Option<seq<AreaEstimate>>)
    ensures r == DangerLevels(text)
  {
    if text == "" {
      return None;
    }
    var sectionStart := IndexOf(text, DangerHeading);
    if sectionStart == -1 {
      return None;
    }
    var nextSectionStart := IndexOfFrom(text, SnowpackHeading, sectionStart);
    var dangerSection := text[sectionStart..if nextSectionStart != -1 then nextSectionStart else |text|];
    var results := ScanSection(BodyLines(dangerSection));
    return Some(Finish(results));
  }

  /** A line with a colon pushes the record built from its two sides. */
  lemma OpenStep(results: seq<AreaEstimate>, line: string)
    requires ':' in line
    ensures Apply(results, Classify(line))
      == results + [AreaEstimate(Trim(Split(line, ':')[0]), Trim(Join(Split(line, ':')[1..], ':')),
                                 Levels(Trim(Join(Split(line, ':')[1..], ':'))))]
  {
  }

  /** A colon-free, non-blank line extends the last record. */
  lemma ContinueStep(results: seq<AreaEstimate>, line: string)
    requires ':' !in line && Trim(line) != "" && |results| > 0
    ensures Apply(results, Classify(line))
      == results[..|results| - 1] + [Extend(results[|results| - 1], Trim(line))]
  {
  }

  /** Any other line leaves the records as they are. */
  lemma SkipStep(results: seq<AreaEstimate>, line: string)
    requires ':' !in line && (Trim(line) == "" || results == [])
    ensures Apply(results, Classify(line)) == results
  {
  }

  /** The line loop of `parseDangerLevels`: the open record is kept as the last element of
      `results`, which stands for the source's aliasing of `currentArea` into `results`. */
  method ScanSection(lines: seq<string>) returns (results: seq<AreaEstimate>)
    ensures results == Scan(lines)
  {
    results := [];
    var currentArea: Option<AreaEstimate> := None;
    for n := 0 to |lines|
      invariant results == Scan(lines[..n])
      invariant currentArea.None? <==> results == []
      invariant currentArea.Some? ==> currentArea.value == results[|results| - 1]
    {
      var line := lines[n];
      assert lines[..n + 1] == lines[..n] + [line];
      ScanSnoc(lines[..n], line);
      if ':' in line {
        var parts := Split(line, ':');
        var desc := Trim(Join(parts[1..], ':'));
        var levels := Levels(desc);
        currentArea := Some(AreaEstimate(Trim(parts[0]), desc, levels));
        OpenStep(results, line);
        results := results + [currentArea.value];
      } else if currentArea.Some? && Trim(line) != "" {
        var cleanLine := Trim(line);
        var current := currentArea.value;
        current := current.(description := current.description + " " + cleanLine);
        current := current.(levels := current.levels + Levels(cleanLine));
        assert current == Extend(currentArea.value, cleanLine);
        ContinueStep(results, line);
        currentArea := Some(current);
        results := results[..|results| - 1] + [current];
      } else {
        SkipStep(results, line);
      }
    }
    assert lines[..|lines|] == lines;
  }

  /** Empty text, or text without the danger heading, gives no estimate (never an error). */
  lemma NoHeadingNoEstimate(text: string)
    ensures DangerLevels(text) == None <==> text == "" || !Contains(text, DangerHeading)
  {
    ContainsIff(text, DangerHeading);
  }

  /** Every estimate returned has a non-blank area and at least one level, distinct and
      highest first; they are exactly the `(d)` digits of its description, or `[0]` when
      the description has none. */
  lemma EstimatesWellFormed(text: string)
    requires DangerLevels(text).Some?
    ensures forall e :: e in DangerLevels(text).value ==>
              && e.area != ""
              && |e.levels| >= 1 && StrictlyDescending(e.levels)
              && (Levels(e.description) == [] ==> e.levels == [0])
              && (Levels(e.description) != [] ==> forall v :: v in e.levels <==> v in Levels(e.description))
  {
    var section := DangerWindow(text).value;
    var raw := Scan(BodyLines(section));
    ScanLevels(BodyLines(section));
    FinishItems(raw);
    forall e | e in DangerLevels(text).value
      ensures Levels(e.description) == [] ==> e.levels == [0]
      ensures Levels(e.description) != [] ==> forall v :: v in e.levels <==> v in Levels(e.description)
    {
      var q :| q in raw && e == Finalize(q);
    }
  }

  /** The estimates are the records of the colon lines of the section body whose area is
      not blank, in line order; there are never more of them than colon lines. */
  lemma EstimateAreas(text: string)
    requires DangerLevels(text).Some?
    ensures var lines := BodyLines(DangerWindow(text).value);
      && AreaNames(DangerLevels(text).value) == NonBlank(ColonAreas(lines))
      && |DangerLevels(text).value| <= |ColonLines(lines)|
  {
    var lines := BodyLines(DangerWindow(text).value);
    FinishedAreas(lines);
    ScanAreas(lines);
  }

  // ---------------------------------------------------------------------------------------
  // Display of a level

  datatype DangerColour = Red | Orange | Yellow | Green

  /** The badge colour of a level: red from 4 up, orange 3, yellow 2, green otherwise. */
  function ColourOf(level: int): (c: DangerColour)
    ensures c == Red <==> level >= 4
    ensures c == Orange <==> level == 3
    ensures c == Yellow <==> level == 2
    ensures c == Green <==> level <= 1
  {
    if level >= 4 then Red else if level >= 3 then Orange else if level >= 2 then Yellow else Green
  }

  /** `{lvl || '?'}`: the unknown level 0 shows as a question mark, any other as its number. */
  function LevelText(level: int): (t: string)
    ensures t == "?" <==> level == 0
    ensures level != 0 ==> t == IntToString(level) && ParseInt(t) == Some(level)
  {
    if level == 0 then "?"
    else
      ParseIntOfIntToString(level);
      IntToString(level)
  }

  /** `typeof nivologica === 'string' ? parseDangerLevels(nivologica) : null`. */
  method ParsedDangerLevels(nivologica: Value) returns (r: Option<seq<AreaEstimate>>)
    ensures !nivologica.Str? ==> r == None
    ensures nivologica.Str? ==> r == DangerLevels(nivologica.s)
  {
    if nivologica.Str? {
      r := ParseDangerLevels(nivologica.s);
    } else {
      r := None;
    }
  }
}
