/**
 * The outline parser of metrics/parsing.py: a line scanner that turns numbered header
 * lines ("1. Title") and bullet lines ("- topic") into an insertion-ordered mapping
 * from section title to the list of its topics.
 */
module Parsing {
  import opened Common

  // ---------------------------------------------------------------------------
  // Characters and Python's str.strip / str.split
  // ---------------------------------------------------------------------------

  /**
   * The characters for which Python's str.isspace() holds; str.strip() removes them
   * and the regular-expression class \s matches them.
   */
  predicate IsSpace(c: char)
  {
    || c == ' '
    || ('\t' <= c <= '\r')
    || ('\U{1C}' <= c <= '\U{1F}')
    || c == '\U{85}' || c == '\U{A0}' || c == '\U{1680}'
    || ('\U{2000}' <= c <= '\U{200A}')
    || c == '\U{2028}' || c == '\U{2029}' || c == '\U{202F}' || c == '\U{205F}' || c == '\U{3000}'
  }

  /** The class \d, restricted to ASCII digits. */
  predicate IsDigit(c: char) { '0' <= c <= '9' }

  predicate AllSpace(s: string)
  {
    forall i :: 0 <= i < |s| ==> IsSpace(s[i])
  }

  /** Neither the first nor the last character is whitespace. */
  predicate Trimmed(s: string)
  {
    |s| == 0 || (!IsSpace(s[0]) && !IsSpace(s[|s| - 1]))
  }

  /** The number of whitespace characters s starts with. */
  function LeadingSpaces(s: string): (n: nat)
    ensures n <= |s|
    ensures forall i :: 0 <= i < n ==> IsSpace(s[i])
    ensures n < |s| ==> !IsSpace(s[n])
  {
    if |s| > 0 && IsSpace(s[0]) then 1 + LeadingSpaces(s[1..]) else 0
  }

  /** The length of s without the whitespace it ends with. */
  function TrailingStart(s: string): (n: nat)
    ensures n <= |s|
    ensures forall i :: n <= i < |s| ==> IsSpace(s[i])
    ensures n > 0 ==> !IsSpace(s[n - 1])
  {
    if |s| > 0 && IsSpace(s[|s| - 1]) then TrailingStart(s[..|s| - 1]) else |s|
  }

  /** str.strip(): the string without its leading and trailing whitespace. */
  function Strip(s: string): (r: string)
    ensures Trimmed(r) && |r| <= |s|
  {
    var t := s[LeadingSpaces(s)..];
    t[..TrailingStart(t)]
  }

  /**
   * Strip(s) is the infix of s left after removing a whitespace-only prefix and a
   * whitespace-only suffix.
   */
  lemma StripIsInfix(s: string) returns (i: nat)
    ensures i + |Strip(s)| <= |s| && Strip(s) == s[i..i + |Strip(s)|]
    ensures AllSpace(s[..i]) && AllSpace(s[i + |Strip(s)|..])
  {
    i := LeadingSpaces(s);
    var t := s[i..];
    var n := TrailingStart(t);
    assert Strip(s) == s[i..i + n];
    forall k | i + n <= k < |s|
      ensures IsSpace(s[k])
    {
      assert s[k] == t[k - i];
    }
  }

  /** Stripping removes nothing but whitespace: a string with a non-space character strips to a non-empty one. */
  lemma StripKeepsNonSpace(s: string, k: nat)
    requires k < |s| && !IsSpace(s[k])
    ensures |Strip(s)| > 0
  {
    var i := StripIsInfix(s);
  }

  lemma StripOfSpaces(s: string)
    requires AllSpace(s)
    ensures Strip(s) == ""
  {
    var i := StripIsInfix(s);
  }

  lemma StripKeepsOut(s: string, c: char)
    ensures c !in s ==> c !in Strip(s)
  {
    var i := StripIsInfix(s);
    forall k | 0 <= k < |Strip(s)|
      ensures Strip(s)[k] == s[i + k]
    {
    }
  }

  /** str.split(sep) for a one-character separator. */
  function Split(s: string, sep: char): (parts: seq<string>)
    ensures |parts| >= 1
    ensures forall k :: 0 <= k < |parts| ==> sep !in parts[k]
    decreases |s|
  {
    if |s| == 0 then [""]
    else
      var rest := Split(s[1..], sep);
      if s[0] == sep then [""] + rest
      else
        var parts := [[s[0]] + rest[0]] + rest[1..];
        assert forall k :: 1 <= k < |parts| ==> parts[k] == rest[k];
        parts
  }

  /** sep.join(parts). */
  function Join(parts: seq<string>, sep: char): string
    requires |parts| >= 1
  {
    if |parts| == 1 then parts[0] else parts[0] + [sep] + Join(parts[1..], sep)
  }

  /** Splitting loses nothing: joining the pieces with the separator gives the string back. */
  lemma {:induction false} JoinSplit(s: string, sep: char)
    ensures Join(Split(s, sep), sep) == s
    decreases |s|
  {
    if |s| > 0 {
      var rest := Split(s[1..], sep);
      JoinSplit(s[1..], sep);
      if s[0] == sep {
        assert Split(s, sep) == [""] + rest;
        assert Split(s, sep)[1..] == rest;
      } else {
        var parts := [[s[0]] + rest[0]] + rest[1..];
        assert Split(s, sep) == parts;
        if |rest| == 1 {
          assert Join(parts, sep) == [s[0]] + rest[0] == [s[0]] + Join(rest, sep);
        } else {
          assert parts[1..] == rest[1..];
          assert Join(parts, sep) == [s[0]] + rest[0] + [sep] + Join(rest[1..], sep);
          assert Join(rest, sep) == rest[0] + [sep] + Join(rest[1..], sep);
        }
        assert [s[0]] + s[1..] == s;
      }
    }
  }

  /** The line list the scanner walks: `text.strip().split("\n")`. */
  function Lines(text: string): (lines: seq<string>)
    ensures forall k :: 0 <= k < |lines| ==> '\n' !in lines[k]
  {
    Split(Strip(text), '\n')
  }

  // ---------------------------------------------------------------------------
  // Classifying one line
  // ---------------------------------------------------------------------------

  /** The longest prefix without a newline: what the regular expression `.+` can consume. */
  function UpToNewline(s: string): (r: string)
    ensures |r| <= |s| && r == s[..|r|] && '\n' !in r
    ensures |r| < |s| ==> s[|r|] == '\n'
  {
    if |s| == 0 || s[0] == '\n' then [] else [s[0]] + UpToNewline(s[1..])
  }

  function LeadingDigits(s: string): (n: nat)
    ensures n <= |s|
    ensures forall i :: 0 <= i < n ==> IsDigit(s[i])
    ensures n < |s| ==> !IsDigit(s[n])
  {
    if |s| > 0 && IsDigit(s[0]) then 1 + LeadingDigits(s[1..]) else 0
  }

  /** The second group of `re.match(r"^(\d+)\.\s(.+)", s)`, or None when it does not match. */
  function HeaderGroup(s: string): (r: Option<string>)
    ensures r.Some? ==> 0 < |r.value| && |r.value| + 3 <= |s| && '\n' !in r.value
    ensures r.Some? ==> 0 < |s| && IsDigit(s[0])
  {
    var n := LeadingDigits(s);
    if 1 <= n && n + 2 < |s| && s[n] == '.' && IsSpace(s[n + 1]) && s[n + 2] != '\n' then
      Some(UpToNewline(s[n + 2..]))
    else None
  }

  /**
   * The pattern `^(\d+)\.\s(.+)` matches s with `\d+` spanning s[..n] and the greedy
   * `(.+)` capturing g.
   */
  ghost predicate HeaderMatchAt(s: string, n: nat, g: string)
  {
    && 1 <= n && n + 2 + |g| <= |s|
    && (forall i :: 0 <= i < n ==> IsDigit(s[i]))
    && s[n] == '.' && IsSpace(s[n + 1])
    && |g| >= 1 && g == s[n + 2..n + 2 + |g|] && '\n' !in g
    && (n + 2 + |g| == |s| || s[n + 2 + |g|] == '\n')
  }

  /** A run of digits ended by a non-digit is exactly what LeadingDigits counts. */
  lemma LeadingDigitsExact(s: string, m: nat)
    requires m < |s| && !IsDigit(s[m])
    requires forall i :: 0 <= i < m ==> IsDigit(s[i])
    ensures LeadingDigits(s) == m
  {
  }

  /** A newline-free prefix ended by a newline or the end of u is exactly UpToNewline(u). */
  lemma UpToNewlineExact(u: string, g: string)
    requires |g| <= |u| && g == u[..|g|] && '\n' !in g
    requires |g| == |u| || u[|g|] == '\n'
    ensures UpToNewline(u) == g
  {
  }

  /** What HeaderGroup captures is a match of the pattern. */
  lemma HeaderGroupSound(s: string)
    requires HeaderGroup(s).Some?
    ensures HeaderMatchAt(s, LeadingDigits(s), HeaderGroup(s).value)
  {
    var n := LeadingDigits(s);
    var u := s[n + 2..];
    var g := UpToNewline(u);
    assert g == s[n + 2..n + 2 + |g|];
    assert n + 2 + |g| < |s| ==> s[n + 2 + |g|] == u[|g|];
  }

  /** Every match of the pattern is what HeaderGroup captures. */
  lemma HeaderGroupComplete(s: string, m: nat, g: string)
    requires HeaderMatchAt(s, m, g)
    ensures HeaderGroup(s) == Some(g)
  {
    LeadingDigitsExact(s, m);
    UpToNewlineExact(s[m + 2..], g);
  }

  /** HeaderGroup agrees with the regular expression, in both directions. */
  lemma HeaderGroupMatches(s: string, g: string)
    ensures HeaderGroup(s) == Some(g) <==> exists n :: HeaderMatchAt(s, n, g)
  {
    if HeaderGroup(s) == Some(g) {
      HeaderGroupSound(s);
    }
    if exists m :: HeaderMatchAt(s, m, g) {
      var m: nat :| HeaderMatchAt(s, m, g);
      HeaderGroupComplete(s, m, g);
    }
  }

  datatype LineKind = Header(title: string) | Bullet(topic: string) | Ignored

  /**
   * What the scanner makes of one line: a header test on the stripped line first, then
   * a "- " test; anything else is ignored.
   */
  function Classify(line: string): (k: LineKind)
    ensures '\n' !in line && k.Header? ==> |k.title| > 0 && Trimmed(k.title)
    ensures '\n' !in line && k.Bullet? ==> |k.topic| > 0 && Trimmed(k.topic)
  {
    var s := Strip(line);
    StripKeepsOut(line, '\n');
    match HeaderGroup(s)
    case Some(g) =>
      HeaderTitleNonEmpty(s);
      Header(Strip(g))
    case None =>
      if |s| >= 2 && s[..2] == "- " then
        BulletTopicNonEmpty(s);
        Bullet(Strip(s[2..]))
      else Ignored
  }

  /** A header line without a newline has a title with a non-space character. */
  lemma HeaderTitleNonEmpty(s: string)
    requires Trimmed(s) && HeaderGroup(s).Some?
    ensures '\n' !in s ==> |Strip(HeaderGroup(s).value)| > 0
  {
    if '\n' !in s {
      var n := LeadingDigits(s);
      var g := HeaderGroup(s).value;
      assert g == s[n + 2..];
      assert g[|g| - 1] == s[|s| - 1];
      StripKeepsNonSpace(g, |g| - 1);
    }
  }

  /** A stripped bullet line has a topic with a non-space character. */
  lemma BulletTopicNonEmpty(s: string)
    requires Trimmed(s) && |s| >= 2 && s[..2] == "- "
    ensures |Strip(s[2..])| > 0
  {
    assert s[1] == ' ';
    var rest := s[2..];
    assert rest[|rest| - 1] == s[|s| - 1];
    StripKeepsNonSpace(rest, |rest| - 1);
  }

  // ---------------------------------------------------------------------------
  // The ordered mapping and the scanner
  // ---------------------------------------------------------------------------

  /** An insertion-ordered dict from section title to topics: `titles` lists its keys in order. */
  datatype Outline = Outline(titles: seq<string>, sections: map<string, seq<string>>)
  {
    ghost predicate Valid()
    {
      NoDuplicates(titles) && forall t :: t in sections <==> t in titles
    }

    /** `structure.values()`: the topic lists in key order. */
    function Values(): seq<seq<string>>
      requires Valid()
    {
      ValuesOf(titles, sections)
    }
  }

  const EmptyOutline := Outline([], map[])

  function ValuesOf(titles: seq<string>, m: map<string, seq<string>>): seq<seq<string>>
    requires forall t :: t in titles ==> t in m
  {
    if |titles| == 0 then [] else ValuesOf(titles[..|titles| - 1], m) + [m[titles[|titles| - 1]]]
  }

  /** The number of topics over all sections. */
  function TopicCount(o: Outline): nat
    requires o.Valid()
  {
    |Flatten(o.Values())|
  }

  /** `structure[key] = value`: a new key goes last, an existing key keeps its place. */
  function Assign(o: Outline, key: string, value: seq<string>): (r: Outline)
    requires o.Valid()
    ensures r.Valid()
  {
    Outline(if key in o.sections then o.titles else o.titles + [key], o.sections[key := value])
  }

  /** `structure[key].append(topic)`. */
  function AppendTopic(o: Outline, key: string, topic: string): (r: Outline)
    requires o.Valid() && key in o.sections
    ensures r.Valid()
  {
    Outline(o.titles, o.sections[key := o.sections[key] + [topic]])
  }

  /** The scanner's variables between two lines: the mapping and `current_section`. */
  datatype ScanState = ScanState(outline: Outline, current: Option<string>)

  ghost predicate ScanValid(st: ScanState)
  {
    st.outline.Valid() && (st.current.Some? ==> st.current.value in st.outline.sections)
  }

  /** The classification of every line, in order. */
  function Kinds(lines: seq<string>): (kinds: seq<LineKind>)
    ensures |kinds| == |lines|
  {
    if |lines| == 0 then [] else Kinds(lines[..|lines| - 1]) + [Classify(lines[|lines| - 1])]
  }

  lemma {:induction false} KindsAt(lines: seq<string>, k: nat)
    requires k < |lines|
    ensures Kinds(lines)[k] == Classify(lines[k])
  {
    if k < |lines| - 1 {
      KindsAt(lines[..|lines| - 1], k);
    }
  }

  /** Every header title and every bullet topic is non-empty and stripped. */
  ghost predicate WellFormedKinds(kinds: seq<LineKind>)
  {
    forall k :: 0 <= k < |kinds| ==> WellFormedKind(kinds[k])
  }

  lemma KindsOfText(text: string)
    ensures WellFormedKinds(Kinds(Lines(text)))
  {
    var lines := Lines(text);
    forall k | 0 <= k < |lines|
      ensures WellFormedKind(Kinds(lines)[k])
    {
      KindsAt(lines, k);
    }
  }

  /** One iteration of the scanner's loop. */
  function Step(st: ScanState, kind: LineKind): (r: ScanState)
    requires ScanValid(st)
    ensures ScanValid(r)
  {
    match kind
    case Header(title) => ScanState(Assign(st.outline, title, []), Some(title))
    case Bullet(topic) =>
      if st.current.Some? && |st.current.value| > 0 then
        ScanState(AppendTopic(st.outline, st.current.value, topic), st.current)
      else st
    case Ignored => st
  }

  /** The scanner's state after lines of the given kinds. */
  function Scan(kinds: seq<LineKind>): (r: ScanState)
    ensures ScanValid(r)
  {
    if |kinds| == 0 then ScanState(EmptyOutline, None)
    else Step(Scan(kinds[..|kinds| - 1]), kinds[|kinds| - 1])
  }

  lemma ScanAppend(kinds: seq<LineKind>, kind: LineKind)
    ensures Scan(kinds + [kind]) == Step(Scan(kinds), kind)
  {
    assert (kinds + [kind])[..|kinds|] == kinds;
  }

  /** parse_course_structure(text) as a function of the text. */
  function Parse(text: string): (o: Outline)
    ensures o.Valid()
  {
    Scan(Kinds(Lines(text))).outline
  }

  /** parse_course_structure: splits the stripped text into lines and scans them. */
  method ParseCourseStructure(text: string) returns (structure: Outline)
    ensures structure == Parse(text)
    ensures structure.Valid()
    ensures forall t :: t in structure.sections ==> |t| > 0 && Trimmed(t)
    ensures forall t, p :: t in structure.sections && p in structure.sections[t] ==> |p| > 0 && Trimmed(p)
    ensures TopicCount(structure) <= |Lines(text)|
  {
    var lines := Split(Strip(text), '\n');
    var st := ScanLoop(lines);
    structure := st.outline;
    KindsOfText(text);
    ParsedEntriesTrimmed(Kinds(lines));
    TopicCountBound(Kinds(lines));
  }

  /** The line loop of parse_course_structure, updating the mapping in place. */
  method ScanLoop(lines: seq<string>) returns (st: ScanState)
    ensures st == Scan(Kinds(lines))
  {
    var titles: seq<string> := [];
    var sections: map<string, seq<string>> := map[];
    var current: Option<string> := None;
    for i := 0 to |lines|
      invariant ScanState(Outline(titles, sections), current) == Scan(Kinds(lines[..i]))
    {
      assert Scan(Kinds(lines[..i + 1])) == Step(Scan(Kinds(lines[..i])), Classify(lines[i])) by {
        assert lines[..i + 1][..i] == lines[..i];
        ScanAppend(Kinds(lines[..i]), Classify(lines[i]));
      }
      titles, sections, current := ScanLine(titles, sections, current, lines[i]);
    }
    assert lines[..|lines|] == lines;
    st := ScanState(Outline(titles, sections), current);
  }

  /**
   * The body of the loop for one line: a header line (re)starts its section with no
   * topics and makes it current, a bullet line after a header appends its topic to the
   * current section, and any other line changes nothing.
   */
  method ScanLine(titles: seq<string>, sections: map<string, seq<string>>, current: Option<string>, line: string)
    returns (titles': seq<string>, sections': map<string, seq<string>>, current': Option<string>)
    requires ScanValid(ScanState(Outline(titles, sections), current))
    ensures ScanState(Outline(titles', sections'), current') ==
      Step(ScanState(Outline(titles, sections), current), Classify(line))
  {
    titles', sections', current' := titles, sections, current;
    var stripped := Strip(line);
    var header := HeaderGroup(stripped);
    if header.Some? {
      var title := Strip(header.value);
      current' := Some(title);
      if title !in sections {
        titles' := titles + [title];
      }
      sections' := sections[title := []];
    } else if current.Some? && |current.value| > 0 && |stripped| >= 2 && stripped[..2] == "- " {
      var topic := Strip(stripped[2..]);
      sections' := sections[current.value := sections[current.value] + [topic]];
    }
  }

  // ---------------------------------------------------------------------------
  // What the scanner produces
  // ---------------------------------------------------------------------------

  /** Blank text yields the empty mapping. */
  lemma ParseBlank(text: string)
    requires AllSpace(text)
    ensures Parse(text) == EmptyOutline
  {
    StripOfSpaces(text);
    assert Split("", '\n') == [""];
    assert Lines(text) == [""];
    StripOfSpaces("");
    assert HeaderGroup("") == None;
    assert Classify("") == Ignored;
    var kinds := Kinds(Lines(text));
    assert kinds == [Ignored];
    assert kinds[..0] == [];
    assert Scan(kinds) == Step(Scan([]), Ignored);
  }

  /** The current section, every title and every topic are non-empty and stripped. */
  ghost predicate EntriesTrimmed(st: ScanState)
  {
    && (st.current.Some? ==> |st.current.value| > 0)
    && (forall t :: t in st.outline.sections ==> |t| > 0 && Trimmed(t))
    && (forall t, p :: t in st.outline.sections && p in st.outline.sections[t] ==> |p| > 0 && Trimmed(p))
  }

  /** A line kind whose title or topic is non-empty and stripped. */
  ghost predicate WellFormedKind(kind: LineKind)
  {
    && (kind.Header? ==> |kind.title| > 0 && Trimmed(kind.title))
    && (kind.Bullet? ==> |kind.topic| > 0 && Trimmed(kind.topic))
  }

  lemma StepKeepsTrimmed(st: ScanState, kind: LineKind)
    requires ScanValid(st) && EntriesTrimmed(st) && WellFormedKind(kind)
    ensures EntriesTrimmed(Step(st, kind))
  {
    match kind
    case Header(h) => HeaderKeepsTrimmed(st, h);
    case Bullet(q) => BulletKeepsTrimmed(st, q);
    case Ignored =>
  }

  lemma HeaderKeepsTrimmed(st: ScanState, h: string)
    requires ScanValid(st) && EntriesTrimmed(st) && |h| > 0 && Trimmed(h)
    ensures EntriesTrimmed(Step(st, Header(h)))
  {
    var sections := st.outline.sections[h := []];
    assert Step(st, Header(h)).outline.sections == sections;
    forall t, p | t in sections && p in sections[t]
      ensures |p| > 0 && Trimmed(p)
    {
      assert sections[t] == st.outline.sections[t];
    }
  }

  lemma BulletKeepsTrimmed(st: ScanState, q: string)
    requires ScanValid(st) && EntriesTrimmed(st) && |q| > 0 && Trimmed(q)
    ensures EntriesTrimmed(Step(st, Bullet(q)))
  {
    if st.current.Some? && |st.current.value| > 0 {
      var c := st.current.value;
      var sections := st.outline.sections[c := st.outline.sections[c] + [q]];
      assert Step(st, Bullet(q)).outline.sections == sections;
      forall t, p | t in sections && p in sections[t]
        ensures |p| > 0 && Trimmed(p)
      {
        if t == c && p != q {
          assert p in st.outline.sections[c];
        }
      }
    }
  }

  /** Every title and every topic the scanner records is non-empty and stripped. */
  lemma {:induction false} ParsedEntriesTrimmed(kinds: seq<LineKind>)
    requires WellFormedKinds(kinds)
    ensures EntriesTrimmed(Scan(kinds))
  {
    if |kinds| > 0 {
      var init := kinds[..|kinds| - 1];
      ParsedEntriesTrimmed(init);
      StepKeepsTrimmed(Scan(init), kinds[|kinds| - 1]);
    }
  }

  function HeaderTitles(kinds: seq<LineKind>): seq<string>
  {
    if |kinds| == 0 then []
    else
      var init := HeaderTitles(kinds[..|kinds| - 1]);
      match kinds[|kinds| - 1]
      case Header(t) => init + [t]
      case _ => init
  }

  /** The distinct elements of s in order of first occurrence. */
  function Dedup(s: seq<string>): seq<string>
  {
    if |s| == 0 then []
    else
      var init := Dedup(s[..|s| - 1]);
      if s[|s| - 1] in init then init else init + [s[|s| - 1]]
  }

  /**
   * The keys of the mapping are the header titles in the order of their first
   * appearance: a repeated header does not move its key.
   */
  lemma {:induction false} ParseTitles(kinds: seq<LineKind>)
    ensures Scan(kinds).outline.titles == Dedup(HeaderTitles(kinds))
  {
    if |kinds| > 0 {
      ParseTitles(kinds[..|kinds| - 1]);
    }
  }

  /** No header among the kinds. */
  ghost predicate HeaderFree(kinds: seq<LineKind>)
  {
    forall k :: 0 <= k < |kinds| ==> !kinds[k].Header?
  }

  /** The index of the last header titled t. */
  function LastHeader(kinds: seq<LineKind>, t: string): (r: Option<nat>)
    ensures r.Some? ==> r.value < |kinds| && kinds[r.value] == Header(t)
    ensures r.Some? ==> forall j :: r.value < j < |kinds| ==> kinds[j] != Header(t)
    ensures r.None? ==> forall j :: 0 <= j < |kinds| ==> kinds[j] != Header(t)
  {
    if |kinds| == 0 then None
    else if kinds[|kinds| - 1] == Header(t) then Some(|kinds| - 1)
    else LastHeader(kinds[..|kinds| - 1], t)
  }

  /** The index of the last header of any title. */
  function LastHeaderIndex(kinds: seq<LineKind>): (r: Option<nat>)
    ensures r.Some? ==> r.value < |kinds| && kinds[r.value].Header?
    ensures r.Some? ==> forall j :: r.value < j < |kinds| ==> !kinds[j].Header?
    ensures r.None? ==> HeaderFree(kinds)
  {
    if |kinds| == 0 then None
    else if kinds[|kinds| - 1].Header? then Some(|kinds| - 1)
    else LastHeaderIndex(kinds[..|kinds| - 1])
  }

  /** The topics of the bullets that come before the first header. */
  function BulletsBeforeHeader(kinds: seq<LineKind>): seq<string>
  {
    if |kinds| == 0 then []
    else
      match kinds[0]
      case Header(_) => []
      case Bullet(p) => [p] + BulletsBeforeHeader(kinds[1..])
      case Ignored => BulletsBeforeHeader(kinds[1..])
  }

  lemma {:induction false} BulletsBeforeHeaderAppend(seg: seq<LineKind>, kind: LineKind)
    ensures BulletsBeforeHeader(seg + [kind]) ==
      BulletsBeforeHeader(seg) + (if HeaderFree(seg) && kind.Bullet? then [kind.topic] else [])
  {
    if |seg| > 0 {
      assert (seg + [kind])[1..] == seg[1..] + [kind];
      BulletsBeforeHeaderAppend(seg[1..], kind);
      if !seg[0].Header? {
        assert HeaderFree(seg[1..]) ==> HeaderFree(seg) by {
          if HeaderFree(seg[1..]) {
            forall k | 0 <= k < |seg| ensures !seg[k].Header? {
              if k > 0 { assert seg[k] == seg[1..][k - 1]; }
            }
          }
        }
      }
    } else {
      assert [] + [kind] == [kind];
      assert [kind][1..] == [];
    }
  }

  /** The scanner's current section is the title of the last header. */
  lemma {:induction false} CurrentIsLastHeader(kinds: seq<LineKind>)
    ensures Scan(kinds).current ==
      (if LastHeaderIndex(kinds).Some? then Some(kinds[LastHeaderIndex(kinds).value].title) else None)
  {
    if |kinds| > 0 {
      var init := kinds[..|kinds| - 1];
      CurrentIsLastHeader(init);
      if LastHeaderIndex(init).Some? {
        assert kinds[LastHeaderIndex(init).value] == init[LastHeaderIndex(init).value];
      }
    }
  }

  /**
   * A bullet goes to the section of the last header titled t exactly when no header
   * follows that one.
   */
  lemma CurrentSection(kinds: seq<LineKind>, t: string, k: nat)
    requires WellFormedKinds(kinds) && LastHeader(kinds, t) == Some(k)
    ensures var cur := Scan(kinds).current;
      (cur.Some? && |cur.value| > 0 && cur.value == t) <==> HeaderFree(kinds[k + 1..])
  {
    ParsedEntriesTrimmed(kinds);
    CurrentIsLastHeader(kinds);
    var seg := kinds[k + 1..];
    var m := LastHeaderIndex(kinds).value;
    assert m >= k;
    if Scan(kinds).current.value == t {
      assert kinds[m] == Header(t);
      assert m == k;
      forall j | 0 <= j < |seg| ensures !seg[j].Header? {
        assert seg[j] == kinds[k + 1 + j];
      }
    } else {
      assert m != k;
      assert seg[m - k - 1] == kinds[m];
    }
  }

  /** A title is a key of the mapping exactly when some header carries it. */
  lemma {:induction false} SectionKeys(kinds: seq<LineKind>, t: string)
    ensures (t in Scan(kinds).outline.sections) == LastHeader(kinds, t).Some?
  {
    if |kinds| > 0 {
      SectionKeys(kinds[..|kinds| - 1], t);
    }
  }

  lemma WellFormedPrefix(kinds: seq<LineKind>, m: nat)
    requires WellFormedKinds(kinds) && m <= |kinds|
    ensures WellFormedKinds(kinds[..m])
  {
    assert forall j :: 0 <= j < m ==> kinds[..m][j] == kinds[j];
  }

  /**
   * The topics recorded under title t, whose last header is at index k, are exactly
   * the bullets that follow that header, in line order, up to the next header.
   * Bullets before the first header belong to no section.
   */
  lemma {:induction false} SectionTopics(kinds: seq<LineKind>, t: string, k: nat)
    requires WellFormedKinds(kinds) && LastHeader(kinds, t) == Some(k)
    ensures t in Scan(kinds).outline.sections
    ensures Scan(kinds).outline.sections[t] == BulletsBeforeHeader(kinds[k + 1..])
  {
    var n := |kinds|;
    var init := kinds[..n - 1];
    if k == n - 1 {
      assert Scan(kinds) == Step(Scan(init), Header(t));
      assert kinds[k + 1..] == [];
    } else {
      assert LastHeader(init, t) == Some(k);
      WellFormedPrefix(kinds, n - 1);
      SectionTopics(init, t, k);
      if kinds[n - 1].Bullet? {
        CurrentSection(init, t, k);
      }
      SuffixSnoc(kinds, k + 1);
      SectionTopicsStep(Scan(init), kinds[n - 1], t, init[k + 1..]);
    }
  }

  /**
   * One step that is not a header titled t extends the topics of t exactly as the
   * bullets after its header are extended, given that the current section is t
   * exactly when no header has followed.
   */
  lemma SectionTopicsStep(st: ScanState, kind: LineKind, t: string, seg: seq<LineKind>)
    requires ScanValid(st) && t in st.outline.sections && kind != Header(t)
    requires st.outline.sections[t] == BulletsBeforeHeader(seg)
    requires kind.Bullet? ==> ((st.current.Some? && |st.current.value| > 0 && st.current.value == t) <==> HeaderFree(seg))
    ensures Step(st, kind).outline.sections[t] == BulletsBeforeHeader(seg + [kind])
  {
    BulletsBeforeHeaderAppend(seg, kind);
  }

  /** The total number of topics never exceeds the number of lines. */
  lemma {:induction false} TopicCountBound(kinds: seq<LineKind>)
    ensures TopicCount(Scan(kinds).outline) <= |kinds|
  {
    if |kinds| > 0 {
      var init := kinds[..|kinds| - 1];
      TopicCountBound(init);
      var st := Scan(init);
      var o := st.outline;
      match kinds[|kinds| - 1]
      case Header(h) =>
        if h in o.sections {
          ValuesUpdateInside(o.titles, o.sections, h, []);
        } else {
          ValuesUpdateOutside(o.titles, o.sections, h, []);
          var m' := o.sections[h := []];
          assert (o.titles + [h])[..|o.titles|] == o.titles;
          assert ValuesOf(o.titles + [h], m') == ValuesOf(o.titles, m') + [[]];
          FlattenLengthAppend(ValuesOf(o.titles, m'), []);
        }
      case Bullet(p) =>
        if st.current.Some? && |st.current.value| > 0 {
          var c := st.current.value;
          ValuesUpdateInside(o.titles, o.sections, c, o.sections[c] + [p]);
        }
      case Ignored =>
    }
  }
  lemma FlattenLengthAppend(xss: seq<seq<string>>, x: seq<string>)
    ensures |Flatten(xss + [x])| == |Flatten(xss)| + |x|
  {
    assert (xss + [x])[..|xss|] == xss;
  }

  lemma {:induction false} ValuesUpdateOutside(titles: seq<string>, m: map<string, seq<string>>, k: string, v: seq<string>)
    requires forall t :: t in titles ==> t in m
    requires k !in titles
    ensures ValuesOf(titles, m[k := v]) == ValuesOf(titles, m)
  {
    if |titles| > 0 {
      ValuesUpdateOutside(titles[..|titles| - 1], m, k, v);
    }
  }

  lemma {:induction false} ValuesUpdateInside(titles: seq<string>, m: map<string, seq<string>>, k: string, v: seq<string>)
    requires forall t :: t in titles ==> t in m
    requires NoDuplicates(titles) && k in titles
    ensures |Flatten(ValuesOf(titles, m[k := v]))| + |m[k]| == |Flatten(ValuesOf(titles, m))| + |v|
  {
    var n := |titles|;
    var init := titles[..n - 1];
    var m' := m[k := v];
    FlattenLengthAppend(ValuesOf(init, m'), m'[titles[n - 1]]);
    FlattenLengthAppend(ValuesOf(init, m), m[titles[n - 1]]);
    if titles[n - 1] == k {
      assert k !in init;
      ValuesUpdateOutside(init, m, k, v);
    } else {
      assert k in init;
      ValuesUpdateInside(init, m, k, v);
    }
  }
}
