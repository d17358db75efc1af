/** The policy page of the front end: the parser that turns a policy's
    plain text into titled sections and subsections, and the match of the
    page's path against `/policies/<type>-<version>`. */
module PolicyPage {
  import opened Wrappers
  import opened Strings
  import PoliciesController

  datatype Subsection = Subsection(title: string, content: string)

  datatype Section = Section(title: string, subsections: seq<Subsection>)

  /** The line is `(\d+)\.\s(.+)` with the number ending at `k`: digits
      before `k`, a dot at `k`, one white-space character, then a non-empty
      title without line terminators. */
  predicate SectionHeadingAt(line: string, k: int) {
    && 1 <= k && k + 2 < |line|
    && (forall i | 0 <= i < k :: IsDigit(line[i]))
    && line[k] == '.' && IsWhiteSpace(line[k + 1])
    && NoLineTerminator(line[k + 2..])
  }

  /** The line is `(\d+\.\d+)\s(.+)` with the number `line[..j]`, whose dot
      is at `k`. */
  predicate SubsectionHeadingAt(line: string, k: int, j: int) {
    && 1 <= k && k + 1 < j && j + 1 < |line|
    && (forall i | 0 <= i < j && i != k :: IsDigit(line[i]))
    && line[k] == '.' && IsWhiteSpace(line[j])
    && NoLineTerminator(line[j + 1..])
  }

  /** `sectionRegex.exec(line)`, giving the title group. */
  function SectionHeading(line: string): Option<string> {
    var k := |Span(line, IsDigit)|;
    if 1 <= k && k + 2 < |line| && line[k] == '.' && IsWhiteSpace(line[k + 1]) && NoLineTerminator(line[k + 2..])
    then Some(line[k + 2..])
    else None
  }

  /** `subsectionRegex.exec(line)`, giving the title group. */
  function SubsectionHeading(line: string): Option<string> {
    var k := |Span(line, IsDigit)|;
    if 1 <= k && k + 1 < |line| && line[k] == '.' then
      var j := k + 1 + |Span(line[k + 1..], IsDigit)|;
      if k + 1 < j && j + 1 < |line| && IsWhiteSpace(line[j]) && NoLineTerminator(line[j + 1..])
      then Some(line[j + 1..])
      else None
    else None
  }

  /** The section test is the regular expression: it matches exactly when
      the line splits as a heading, and the title is the text after the
      number, the dot and the white space. */
  lemma SectionHeadingMeaning(line: string)
    ensures SectionHeading(line).Some? <==> exists k :: SectionHeadingAt(line, k)
    ensures forall k | SectionHeadingAt(line, k) :: SectionHeading(line) == Some(line[k + 2..])
  {
    forall k | SectionHeadingAt(line, k) ensures SectionHeading(line) == Some(line[k + 2..]) {
      SpanIsMaximal(line, IsDigit, k);
    }
    if SectionHeading(line).Some? {
      assert SectionHeadingAt(line, |Span(line, IsDigit)|);
    }
  }

  lemma SubsectionHeadingTitle(line: string, k: int, j: int)
    requires SubsectionHeadingAt(line, k, j)
    ensures SubsectionHeading(line) == Some(line[j + 1..])
  {
    SpanIsMaximal(line, IsDigit, k);
    SpanIsMaximal(line[k + 1..], IsDigit, j - k - 1);
  }

  /** Likewise for the subsection test, with the number `digits.digits`. */
  lemma SubsectionHeadingMeaning(line: string)
    ensures SubsectionHeading(line).Some? <==> exists k, j :: SubsectionHeadingAt(line, k, j)
    ensures forall k, j | SubsectionHeadingAt(line, k, j) :: SubsectionHeading(line) == Some(line[j + 1..])
  {
    forall k, j | SubsectionHeadingAt(line, k, j) ensures SubsectionHeading(line) == Some(line[j + 1..]) {
      SubsectionHeadingTitle(line, k, j);
    }
    if SubsectionHeading(line).Some? {
      var k := |Span(line, IsDigit)|;
      var ds := Span(line[k + 1..], IsDigit);
      var j := k + 1 + |ds|;
      assert forall i | k < i < j :: line[i] == ds[i - k - 1];
      assert SubsectionHeadingAt(line, k, j);
    }
  }

  /** No line is both a section and a subsection heading, so the order of
      the two tests does not matter. */
  lemma HeadingsExclusive(line: string)
    ensures !(SectionHeading(line).Some? && SubsectionHeading(line).Some?)
  {
    if SectionHeading(line).Some? {
      var k := |Span(line, IsDigit)|;
      assert !IsDigit(line[k + 1]);
      assert Span(line[k + 1..], IsDigit) == [];
    }
  }

  /** What one line of the split text is, once trimmed. */
  datatype LineKind = Blank | SectionLine(title: string) | SubsectionLine(title: string) | TextLine(text: string)

  function Classify(raw: string): LineKind {
    var line := Trim(raw);
    if line == [] then Blank
    else match SectionHeading(line)
      case Some(t) => SectionLine(t)
      case None =>
        match SubsectionHeading(line)
        case Some(t) => SubsectionLine(t)
        case None => TextLine(line)
  }

  /** The parser's variables between two lines: the finished sections, the
      current section and the pending subsection. */
  datatype ParseState = ParseState(sections: seq<Section>, current: Option<Section>, pending: Option<Subsection>)

  /** How a new section heading treats the pending subsection: the page
      drops it; attaching it to the section it belongs to is what the
      page evidently means to do. */
  datatype Variant = AsWritten | AttachPending

  /** The current section with the pending subsection pushed into it. */
  function Attach(current: Option<Section>, pending: Option<Subsection>): Option<Section> {
    if current.Some? && pending.Some?
    then Some(current.value.(subsections := current.value.subsections + [pending.value]))
    else current
  }

  /** One iteration of the `forEach`; `None` is the `TypeError` of pushing a
      subsection into a section that does not exist. */
  function Step(st: ParseState, kind: LineKind, variant: Variant): Option<ParseState> {
    match kind
    case Blank => Some(st)
    case SectionLine(t) =>
      var closed := if variant == AttachPending then Attach(st.current, st.pending) else st.current;
      var sections := if closed.Some? then st.sections + [closed.value] else st.sections;
      Some(ParseState(sections, Some(Section(t, [])), None))
    case SubsectionLine(t) =>
      if st.pending.None? then Some(st.(pending := Some(Subsection(t, ""))))
      else if st.current.None? then None
      else Some(ParseState(st.sections, Attach(st.current, st.pending), Some(Subsection(t, ""))))
    case TextLine(text) =>
      if st.pending.None? then Some(st)
      else Some(st.(pending := Some(st.pending.value.(content := st.pending.value.content + text + "\n"))))
  }

  /** Every line of the text, classified. */
  function Kinds(lines: seq<string>): seq<LineKind> {
    seq(|lines|, i requires 0 <= i < |lines| => Classify(lines[i]))
  }

  /** The `forEach` over the first lines. */
  function Run(kinds: seq<LineKind>, variant: Variant): Option<ParseState> {
    if kinds == [] then Some(ParseState([], None, None))
    else
      match Run(kinds[..|kinds| - 1], variant)
      case None => None
      case Some(st) => Step(st, kinds[|kinds| - 1], variant)
  }

  /** The two pushes after the loop. */
  function Finish(st: ParseState): Option<seq<Section>> {
    if st.pending.Some? && st.current.None? then None
    else
      var last := Attach(st.current, st.pending);
      Some(if last.Some? then st.sections + [last.value] else st.sections)
  }

  /** The loop over the lines followed by the two pushes. */
  function ParseLines(lines: seq<string>, variant: Variant): Option<seq<Section>> {
    match Run(Kinds(lines), variant)
    case None => None
    case Some(st) => Finish(st)
  }

  /** `parsePolicyContent(rawText)`; `None` when it throws. */
  function Parse(rawText: string, variant: Variant): Option<seq<Section>> {
    ParseLines(Split(rawText, '\n'), variant)
  }

  lemma {:induction false} RunFailureSticks(kinds: seq<LineKind>, i: nat, variant: Variant)
    requires i <= |kinds| && Run(kinds[..i], variant).None?
    ensures Run(kinds, variant).None?
    decreases |kinds| - i
  {
    if i < |kinds| {
      assert kinds[..i + 1][..i] == kinds[..i];
      RunFailureSticks(kinds, i + 1, variant);
    } else {
      assert kinds[..i] == kinds;
    }
  }

  lemma RunStep(kinds: seq<LineKind>, i: nat, variant: Variant)
    requires i < |kinds|
    ensures Run(kinds[..i + 1], variant) ==
      match Run(kinds[..i], variant)
      case None => None
      case Some(st) => Step(st, kinds[i], variant)
  {
    assert kinds[..i + 1][..i] == kinds[..i];
  }

  /** What each kind of line is, in terms of the heading shapes: a line
      is blank when it trims to nothing; a section heading when it has the
      section shape, titled by the text after the number and the white
      space; a subsection heading when it has the subsection shape, which
      no section heading has; and text, kept trimmed, otherwise. */
  lemma ClassifyMeaning(raw: string)
    ensures var (line, kind) := (Trim(raw), Classify(raw));
      && (kind.Blank? <==> line == [])
      && (kind.SectionLine? <==> exists k :: SectionHeadingAt(line, k))
      && (forall k | SectionHeadingAt(line, k) :: kind == SectionLine(line[k + 2..]))
      && (kind.SubsectionLine? <==> exists k, j :: SubsectionHeadingAt(line, k, j))
      && (forall k, j | SubsectionHeadingAt(line, k, j) :: kind == SubsectionLine(line[j + 1..]))
      && (kind.TextLine? <==>
            line != [] && (forall k :: !SectionHeadingAt(line, k)) && forall k, j :: !SubsectionHeadingAt(line, k, j))
      && (kind.TextLine? ==> kind.text == line)
  {
    var line := Trim(raw);
    SectionHeadingMeaning(line);
    SubsectionHeadingMeaning(line);
    HeadingsExclusive(line);
  }

  /** The branches of `Classify`, one per kind of line. */
  lemma ClassifyCases(raw: string)
    ensures var line := Trim(raw);
      && (line == [] ==> Classify(raw) == Blank)
      && (line != [] && SectionHeading(line).Some? ==> Classify(raw) == SectionLine(SectionHeading(line).value))
      && ((line != [] && SectionHeading(line).None? && SubsectionHeading(line).Some?)
          ==> Classify(raw) == SubsectionLine(SubsectionHeading(line).value))
      && (line != [] && SectionHeading(line).None? && SubsectionHeading(line).None? ==> Classify(raw) == TextLine(line))
  {
  }

  /** The body of the page's per-line callback: one line, trimmed and
      classified, updates the current section and the pending subsection;
      `None` is the crash of a subsection arriving while one is pending and
      no section is open. */
  method ParseLine(raw: string, sections: seq<Section>, currentSection: Option<Section>, currentSubsection: Option<Subsection>)
    returns (next: Option<ParseState>)
    ensures next == Step(ParseState(sections, currentSection, currentSubsection), Classify(raw), AsWritten)
  {
    ClassifyCases(raw);
    var line := Trim(raw);
    if line == "" {
      return Some(ParseState(sections, currentSection, currentSubsection));
    }
    var sectionMatch := SectionHeading(line);
    var subsectionMatch := SubsectionHeading(line);
    if sectionMatch.Some? {
      var closed := if currentSection.Some? then sections + [currentSection.value] else sections;
      next := Some(ParseState(closed, Some(Section(sectionMatch.value, [])), None));
    } else if subsectionMatch.Some? {
      var section := currentSection;
      if currentSubsection.Some? {
        if currentSection.None? {
          return None;
        }
        var s := currentSection.value;
        section := Some(s.(subsections := s.subsections + [currentSubsection.value]));
      }
      next := Some(ParseState(sections, section, Some(Subsection(subsectionMatch.value, ""))));
    } else {
      var pending := currentSubsection;
      if currentSubsection.Some? {
        var sub := currentSubsection.value;
        pending := Some(sub.(content := sub.content + line + "\n"));
      }
      next := Some(ParseState(sections, currentSection, pending));
    }
  }

  /** The two pushes after the loop: the pending subsection into the
      current section, then the current section into the list. */
  method CloseParse(sections: seq<Section>, currentSection: Option<Section>, currentSubsection: Option<Subsection>)
    returns (result: Option<seq<Section>>)
    ensures result == Finish(ParseState(sections, currentSection, currentSubsection))
  {
    var section := currentSection;
    if currentSubsection.Some? {
      if currentSection.None? {
        return None;
      }
      var s := currentSection.value;
      section := Some(s.(subsections := s.subsections + [currentSubsection.value]));
    }
    result := Some(if section.Some? then sections + [section.value] else sections);
  }

  /** One turn of the `forEach`: the state after line `i`, given the state
      after the lines before it. */
  method ParseLineAt(lines: seq<string>, i: nat, sections: seq<Section>, currentSection: Option<Section>,
                     currentSubsection: Option<Subsection>)
    returns (next: Option<ParseState>)
    requires i < |lines|
    requires Run(Kinds(lines)[..i], AsWritten) == Some(ParseState(sections, currentSection, currentSubsection))
    ensures next == Run(Kinds(lines)[..i + 1], AsWritten)
  {
    RunStep(Kinds(lines), i, AsWritten);
    next := ParseLine(lines[i], sections, currentSection, currentSubsection);
  }

  /** The `forEach` over the lines, updating the current section and the
      pending subsection, then the two pushes that close both. */
  method ParseEachLine(lines: seq<string>) returns (result: Option<seq<Section>>)
    ensures result == ParseLines(lines, AsWritten)
  {
    ghost var kinds := Kinds(lines);
    var sections: seq<Section> := [];
    var currentSection: Option<Section> := None;
    var currentSubsection: Option<Subsection> := None;
    var i := 0;
    while i < |lines|
      invariant 0 <= i <= |lines|
      invariant Run(kinds[..i], AsWritten) == Some(ParseState(sections, currentSection, currentSubsection))
    {
      var next := ParseLineAt(lines, i, sections, currentSection, currentSubsection);
      if next.None? {
        RunFailureSticks(kinds, i + 1, AsWritten);
        return None;
      }
      sections, currentSection, currentSubsection := next.value.sections, next.value.current, next.value.pending;
      i := i + 1;
    }
    assert kinds[..i] == kinds;
    result := CloseParse(sections, currentSection, currentSubsection);
  }
  /** `parsePolicyContent` as the page runs it: a loop over the lines that
      updates the current section and the pending subsection, then closes
      both. */
  method ParsePolicyContent(rawText: string) returns (result: Option<seq<Section>>)
    ensures result == Parse(rawText, AsWritten)
  {
    var lines := Split(rawText, '\n');
    result := ParseEachLine(lines);
  }


  /** The titles of the section headings, in order. */
  function HeadingTitles(kinds: seq<LineKind>): seq<string> {
    if kinds == [] then []
    else
      var kind := kinds[|kinds| - 1];
      HeadingTitles(kinds[..|kinds| - 1]) + (if kind.SectionLine? then [kind.title] else [])
  }

  /** Subsection headings met before any section heading. */
  function Orphans(kinds: seq<LineKind>): nat {
    if kinds == [] then 0
    else
      var init := kinds[..|kinds| - 1];
      Orphans(init) + (if kinds[|kinds| - 1].SubsectionLine? && HeadingTitles(init) == [] then 1 else 0)
  }

  /** Subsection headings that follow some section heading. */
  function Attachable(kinds: seq<LineKind>): nat {
    if kinds == [] then 0
    else
      var init := kinds[..|kinds| - 1];
      Attachable(init) + (if kinds[|kinds| - 1].SubsectionLine? && HeadingTitles(init) != [] then 1 else 0)
  }

  function Titles(sections: seq<Section>): seq<string> {
    if sections == [] then [] else Titles(sections[..|sections| - 1]) + [sections[|sections| - 1].title]
  }

  function SubsectionCount(sections: seq<Section>): nat {
    if sections == [] then 0
    else SubsectionCount(sections[..|sections| - 1]) + |sections[|sections| - 1].subsections|
  }

  function Closed(st: ParseState): seq<Section> {
    if st.current.Some? then st.sections + [st.current.value] else st.sections
  }

  lemma TitlesAppend(sections: seq<Section>, s: Section)
    ensures Titles(sections + [s]) == Titles(sections) + [s.title]
  {
    assert (sections + [s])[..|sections|] == sections;
  }

  lemma SubsectionCountAppend(sections: seq<Section>, s: Section)
    ensures SubsectionCount(sections + [s]) == SubsectionCount(sections) + |s.subsections|
  {
    assert (sections + [s])[..|sections|] == sections;
  }

  /** Between two lines: the parse has failed exactly when two subsection
      headings came before any section heading; there is a current section
      exactly when a section heading has been read; before it, a subsection
      is pending exactly when one subsection heading has been read; and the
      sections so far carry the headings' titles in order. */
  lemma {:induction false} RunShape(kinds: seq<LineKind>, variant: Variant)
    ensures Run(kinds, variant).None? <==> Orphans(kinds) >= 2
    ensures Run(kinds, variant).Some? ==>
      var st := Run(kinds, variant).value;
      && (st.current.None? <==> HeadingTitles(kinds) == [])
      && (st.current.None? ==> (st.pending.Some? <==> Orphans(kinds) == 1))
      && Titles(Closed(st)) == HeadingTitles(kinds)
  {
    if kinds != [] {
      RunShape(kinds[..|kinds| - 1], variant);
      ShapeStep(kinds, variant);
    }
  }

  /** What `RunShape` states about `kinds`. */
  ghost predicate Shaped(kinds: seq<LineKind>, variant: Variant) {
    && (Run(kinds, variant).None? <==> Orphans(kinds) >= 2)
    && (Run(kinds, variant).Some? ==>
          var st := Run(kinds, variant).value;
          && (st.current.None? <==> HeadingTitles(kinds) == [])
          && (st.current.None? ==> (st.pending.Some? <==> Orphans(kinds) == 1))
          && Titles(Closed(st)) == HeadingTitles(kinds))
  }

  lemma ShapeStep(kinds: seq<LineKind>, variant: Variant)
    requires kinds != [] && Shaped(kinds[..|kinds| - 1], variant)
    ensures Shaped(kinds, variant)
  {
    var init := kinds[..|kinds| - 1];
    if Run(init, variant).Some? {
      var st := Run(init, variant).value;
      match kinds[|kinds| - 1]
      case Blank => QuietStepShape(kinds, variant, st);
      case TextLine(_) => QuietStepShape(kinds, variant, st);
      case SectionLine(t) => SectionStepShape(kinds, variant, st, t);
      case SubsectionLine(t) => SubsectionStepShape(kinds, variant, st, t);
    }
  }

  lemma QuietStepShape(kinds: seq<LineKind>, variant: Variant, st: ParseState)
    requires kinds != [] && Shaped(kinds[..|kinds| - 1], variant)
    requires Run(kinds[..|kinds| - 1], variant) == Some(st)
    requires kinds[|kinds| - 1].Blank? || kinds[|kinds| - 1].TextLine?
    ensures Shaped(kinds, variant)
  {
    var init := kinds[..|kinds| - 1];
    assert HeadingTitles(kinds) == HeadingTitles(init);
    assert Orphans(kinds) == Orphans(init);
    assert Run(kinds, variant) == Step(st, kinds[|kinds| - 1], variant);
  }

  lemma SectionStepShape(kinds: seq<LineKind>, variant: Variant, st: ParseState, t: string)
    requires kinds != [] && Shaped(kinds[..|kinds| - 1], variant)
    requires Run(kinds[..|kinds| - 1], variant) == Some(st)
    requires kinds[|kinds| - 1] == SectionLine(t)
    ensures Shaped(kinds, variant)
  {
    var init := kinds[..|kinds| - 1];
    var closed := if variant == AttachPending then Attach(st.current, st.pending) else st.current;
    var sections := if closed.Some? then st.sections + [closed.value] else st.sections;
    assert Run(kinds, variant) == Some(ParseState(sections, Some(Section(t, [])), None));
    assert HeadingTitles(kinds) == HeadingTitles(init) + [t];
    assert Orphans(kinds) == Orphans(init);
    assert Titles(sections) == Titles(Closed(st)) by {
      if closed.Some? {
        TitlesAppend(st.sections, closed.value);
        TitlesAppend(st.sections, st.current.value);
      }
    }
    TitlesAppend(sections, Section(t, []));
  }

  lemma SubsectionStepShape(kinds: seq<LineKind>, variant: Variant, st: ParseState, t: string)
    requires kinds != [] && Shaped(kinds[..|kinds| - 1], variant)
    requires Run(kinds[..|kinds| - 1], variant) == Some(st)
    requires kinds[|kinds| - 1] == SubsectionLine(t)
    ensures Shaped(kinds, variant)
  {
    var init := kinds[..|kinds| - 1];
    assert HeadingTitles(kinds) == HeadingTitles(init);
    assert Orphans(kinds) == Orphans(init) + (if HeadingTitles(init) == [] then 1 else 0);
    if st.pending.None? {
      assert Run(kinds, variant) == Some(st.(pending := Some(Subsection(t, ""))));
    } else if st.current.None? {
      assert Run(kinds, variant) == None;
    } else {
      var next := ParseState(st.sections, Attach(st.current, st.pending), Some(Subsection(t, "")));
      assert Run(kinds, variant) == Some(next);
      TitlesAppend(st.sections, st.current.value);
      TitlesAppend(st.sections, Attach(st.current, st.pending).value);
    }
  }

  /** The page's parse fails exactly when two subsection headings come
      before the first section heading, or when the text has a subsection
      heading and no section heading at all; when it succeeds, the sections
      are the section headings, in order, with their titles. */
  lemma ParseOutcome(rawText: string, variant: Variant)
    ensures var kinds := Kinds(Split(rawText, '\n'));
      && (Parse(rawText, variant).None? <==> Orphans(kinds) >= (if HeadingTitles(kinds) == [] then 1 else 2))
      && (Parse(rawText, variant).Some? ==> Titles(Parse(rawText, variant).value) == HeadingTitles(kinds))
  {
    var kinds := Kinds(Split(rawText, '\n'));
    RunShape(kinds, variant);
    if Run(kinds, variant).Some? {
      var st := Run(kinds, variant).value;
      if st.current.Some? && st.pending.Some? {
        TitlesAppend(st.sections, st.current.value);
        TitlesAppend(st.sections, Attach(st.current, st.pending).value);
      }
    }
  }

  /** With the pending subsection attached, the sections so far hold every
      subsection heading that follows a section heading, the pending one
      counted once it has a section. */
  lemma {:induction false} AttachedRunKeepsSubsections(kinds: seq<LineKind>)
    requires Run(kinds, AttachPending).Some?
    ensures var st := Run(kinds, AttachPending).value;
      SubsectionCount(st.sections)
        + (if st.current.Some? then |st.current.value.subsections| + (if st.pending.Some? then 1 else 0) else 0)
      == Attachable(kinds)
  {
    if kinds != [] {
      var init := kinds[..|kinds| - 1];
      RunShape(init, AttachPending);
      AttachedRunKeepsSubsections(init);
      var st := Run(init, AttachPending).value;
      match kinds[|kinds| - 1]
      case Blank =>
      case TextLine(_) =>
      case SectionLine(t) =>
        var closed := Attach(st.current, st.pending);
        if closed.Some? {
          SubsectionCountAppend(st.sections, closed.value);
        }
      case SubsectionLine(_) =>
    }
  }

  /** With the pending subsection attached, a successful parse holds every
      subsection heading that follows a section heading. */
  lemma AttachedParseKeepsEverySubsection(rawText: string)
    requires Parse(rawText, AttachPending).Some?
    ensures SubsectionCount(Parse(rawText, AttachPending).value) == Attachable(Kinds(Split(rawText, '\n')))
  {
    var kinds := Kinds(Split(rawText, '\n'));
    AttachedRunKeepsSubsections(kinds);
    var st := Run(kinds, AttachPending).value;
    var last := Attach(st.current, st.pending);
    if last.Some? {
      SubsectionCountAppend(st.sections, last.value);
    }
  }

  // ---------------------------------------------------------------------
  // The outline a policy text describes, independently of the parser's
  // variables: every section heading with the subsection headings up to
  // the next section heading, every subsection with the text up to the
  // next heading.

  predicate IsSectionKind(kind: LineKind) { kind.SectionLine? }

  predicate IsSubsectionKind(kind: LineKind) { kind.SubsectionLine? }

  /** The position of the last line of `kinds` that `isHeading` accepts. */
  function LastWhere(kinds: seq<LineKind>, isHeading: LineKind -> bool): (r: Option<nat>)
    ensures r.Some? ==> r.value < |kinds| && isHeading(kinds[r.value])
    ensures r.Some? ==> forall i | r.value < i < |kinds| :: !isHeading(kinds[i])
    ensures r.None? ==> forall i | 0 <= i < |kinds| :: !isHeading(kinds[i])
  {
    if kinds == [] then None
    else if isHeading(kinds[|kinds| - 1]) then Some(|kinds| - 1)
    else LastWhere(kinds[..|kinds| - 1], isHeading)
  }

  /** The text lines of `kinds`, each followed by a line break. */
  function Content(kinds: seq<LineKind>): string {
    if kinds == [] then ""
    else
      var kind := kinds[|kinds| - 1];
      Content(kinds[..|kinds| - 1]) + (if kind.TextLine? then kind.text + "\n" else "")
  }

  /** The subsections of a section's lines: each subsection heading, with
      the content of the lines after it up to the next subsection heading. */
  function Subsections(block: seq<LineKind>): seq<Subsection>
    decreases |block|
  {
    match LastWhere(block, IsSubsectionKind)
    case None => []
    case Some(r) => Subsections(block[..r]) + [Subsection(block[r].title, Content(block[r + 1..]))]
  }

  /** The sections of a text: each section heading, with the subsections of
      the lines after it up to the next section heading. Lines before the
      first section heading belong to no section. */
  function Outline(kinds: seq<LineKind>): seq<Section>
    decreases |kinds|
  {
    match LastWhere(kinds, IsSectionKind)
    case None => []
    case Some(p) => Outline(kinds[..p]) + [Section(kinds[p].title, Subsections(kinds[p + 1..]))]
  }

  /** A section without its last subsection. */
  function DropLastSubsection(s: Section): (r: Section)
    ensures r.title == s.title
    ensures s.subsections != [] ==> s.subsections == r.subsections + [s.subsections[|s.subsections| - 1]]
    ensures s.subsections == [] ==> r == s
  {
    if s.subsections == [] then s else s.(subsections := s.subsections[..|s.subsections| - 1])
  }

  /** The sections a later section heading closed, as each variant leaves
      them: the page as written loses the last subsection of each. */
  function ClosedAs(sections: seq<Section>, variant: Variant): seq<Section> {
    if variant == AttachPending then sections
    else seq(|sections|, i requires 0 <= i < |sections| => DropLastSubsection(sections[i]))
  }

  lemma ClosedAsAppend(sections: seq<Section>, s: Section, variant: Variant)
    ensures ClosedAs(sections + [s], variant)
      == ClosedAs(sections, variant) + [if variant == AttachPending then s else DropLastSubsection(s)]
  {
  }

  lemma LastWhereAppend(kinds: seq<LineKind>, kind: LineKind, isHeading: LineKind -> bool)
    ensures LastWhere(kinds + [kind], isHeading) == if isHeading(kind) then Some(|kinds|) else LastWhere(kinds, isHeading)
  {
    assert (kinds + [kind])[..|kinds|] == kinds;
  }

  lemma ContentAppend(kinds: seq<LineKind>, kind: LineKind)
    ensures Content(kinds + [kind]) == Content(kinds) + (if kind.TextLine? then kind.text + "\n" else "")
  {
    assert (kinds + [kind])[..|kinds|] == kinds;
  }

  /** The parser's variables after the lines `kinds`, in terms of the
      outline: the closed sections are the outline before the last section
      heading, and the lines after it make the open section. */
  ghost predicate Tracks(kinds: seq<LineKind>, variant: Variant, st: ParseState) {
    match LastWhere(kinds, IsSectionKind)
    case None => st.sections == [] && st.current.None?
    case Some(p) =>
      && st.sections == ClosedAs(Outline(kinds[..p]), variant)
      && TracksOpen(kinds[p].title, kinds[p + 1..], st.current, st.pending)
  }

  /** The open section titled `title` with the lines `block` after its
      heading: the current section holds the subsections of `block` but the
      last one, which is pending with its content so far. */
  ghost predicate TracksOpen(title: string, block: seq<LineKind>, current: Option<Section>, pending: Option<Subsection>) {
    match LastWhere(block, IsSubsectionKind)
    case None => current == Some(Section(title, [])) && pending.None?
    case Some(r) =>
      && current == Some(Section(title, Subsections(block[..r])))
      && pending == Some(Subsection(block[r].title, Content(block[r + 1..])))
  }

  /** The content a blank or text line adds to the pending subsection. */
  function Added(kind: LineKind): string {
    if kind.TextLine? then kind.text + "\n" else ""
  }

  lemma QuietOpen(title: string, block: seq<LineKind>, kind: LineKind, current: Option<Section>, pending: Option<Subsection>)
    requires kind.Blank? || kind.TextLine?
    requires TracksOpen(title, block, current, pending)
    ensures TracksOpen(title, block + [kind], current, Grown(pending, kind))
  {
    LastWhereAppend(block, kind, IsSubsectionKind);
    match LastWhere(block, IsSubsectionKind)
    case None =>
    case Some(r) =>
      assert (block + [kind])[..r] == block[..r] && (block + [kind])[r] == block[r];
      assert (block + [kind])[r + 1..] == block[r + 1..] + [kind];
      ContentAppend(block[r + 1..], kind);
  }

  lemma SubsectionOpen(title: string, block: seq<LineKind>, t: string, current: Option<Section>, pending: Option<Subsection>)
    requires TracksOpen(title, block, current, pending)
    ensures TracksOpen(title, block + [SubsectionLine(t)], Attach(current, pending), Some(Subsection(t, "")))
  {
    var kind := SubsectionLine(t);
    LastWhereAppend(block, kind, IsSubsectionKind);
    assert (block + [kind])[..|block|] == block;
    assert (block + [kind])[|block| + 1..] == [];
  }

  /** Closing the open section gives its whole entry of the outline with
      the pending subsection attached, and that entry without its last
      subsection without. */
  lemma CloseOpen(title: string, block: seq<LineKind>, current: Option<Section>, pending: Option<Subsection>)
    requires TracksOpen(title, block, current, pending)
    ensures Attach(current, pending) == Some(Section(title, Subsections(block)))
    ensures current == Some(DropLastSubsection(Section(title, Subsections(block))))
  {
  }

  /** Splits `kinds + [kind]` around a section heading of `kinds`. */
  lemma AppendAfterSection(kinds: seq<LineKind>, kind: LineKind, p: nat)
    requires p < |kinds|
    ensures (kinds + [kind])[..p] == kinds[..p] && (kinds + [kind])[p] == kinds[p]
    ensures (kinds + [kind])[p + 1..] == kinds[p + 1..] + [kind]
  {
  }

  /** A blank or text line adds its content to the pending subsection. */
  lemma QuietStep(st: ParseState, kind: LineKind, variant: Variant)
    requires kind.Blank? || kind.TextLine?
    ensures Step(st, kind, variant) == Some(st.(pending := Grown(st.pending, kind)))
  {
    if st.pending.None? {
      assert st.(pending := None) == st;
    } else if kind.Blank? {
      var sub := st.pending.value;
      assert sub.content + Added(kind) == sub.content;
      assert Grown(st.pending, kind) == st.pending;
      assert st.(pending := st.pending) == st;
    } else {
      var c := st.pending.value.content;
      assert c + kind.text + "\n" == c + Added(kind);
    }
  }

  /** The pending subsection, if any, with the content of `kind` added. */
  function Grown(pending: Option<Subsection>, kind: LineKind): Option<Subsection> {
    if pending.None? then None
    else Some(pending.value.(content := pending.value.content + Added(kind)))
  }

  /** A blank or text line: it extends the content of the pending
      subsection, if any, and nothing else. */
  lemma QuietStepTracks(init: seq<LineKind>, kind: LineKind, variant: Variant, st: ParseState)
    requires kind.Blank? || kind.TextLine?
    requires Tracks(init, variant, st) && Step(st, kind, variant).Some?
    ensures Tracks(init + [kind], variant, Step(st, kind, variant).value)
  {
    QuietStep(st, kind, variant);
    LastWhereAppend(init, kind, IsSectionKind);
    match LastWhere(init, IsSectionKind)
    case None =>
    case Some(p) =>
      AppendAfterSection(init, kind, p);
      QuietOpen(init[p].title, init[p + 1..], kind, st.current, st.pending);
  }

  /** A subsection heading: the pending subsection joins the current
      section and the heading becomes the pending one. */
  lemma SubsectionStepTracks(init: seq<LineKind>, t: string, variant: Variant, st: ParseState)
    requires Tracks(init, variant, st) && Step(st, SubsectionLine(t), variant).Some?
    ensures Tracks(init + [SubsectionLine(t)], variant, Step(st, SubsectionLine(t), variant).value)
  {
    var kind := SubsectionLine(t);
    LastWhereAppend(init, kind, IsSectionKind);
    match LastWhere(init, IsSectionKind)
    case None =>
    case Some(p) =>
      var next := Step(st, kind, variant).value;
      assert next == ParseState(st.sections, Attach(st.current, st.pending), Some(Subsection(t, "")));
      AppendAfterSection(init, kind, p);
      SubsectionOpen(init[p].title, init[p + 1..], t, st.current, st.pending);
  }

  /** A section heading: the current section, closed as the variant closes
      it, joins the list, and the heading opens a new one. */
  lemma SectionStepTracks(init: seq<LineKind>, t: string, variant: Variant, st: ParseState)
    requires Tracks(init, variant, st)
    ensures Step(st, SectionLine(t), variant).Some?
    ensures Tracks(init + [SectionLine(t)], variant, Step(st, SectionLine(t), variant).value)
  {
    var kind := SectionLine(t);
    var kinds := init + [kind];
    LastWhereAppend(init, kind, IsSectionKind);
    assert kinds[..|init|] == init && kinds[|init| + 1..] == [];
    assert LastWhere(kinds[|init| + 1..], IsSubsectionKind).None?;
    var sections := ClosedAs(Outline(init), variant);
    SectionClosesOpen(init, t, variant, st);
    assert Step(st, kind, variant) == Some(ParseState(sections, Some(Section(t, [])), None));
  }

  /** The sections list after a section heading is the outline so far,
      every section closed as the variant closes it. */
  lemma SectionClosesOpen(init: seq<LineKind>, t: string, variant: Variant, st: ParseState)
    requires Tracks(init, variant, st)
    ensures Step(st, SectionLine(t), variant).Some?
    ensures Step(st, SectionLine(t), variant).value.sections == ClosedAs(Outline(init), variant)
  {
    match LastWhere(init, IsSectionKind)
    case None =>
    case Some(p) =>
      var section := Section(init[p].title, Subsections(init[p + 1..]));
      assert Outline(init) == Outline(init[..p]) + [section];
      CloseOpen(init[p].title, init[p + 1..], st.current, st.pending);
      ClosedAsAppend(Outline(init[..p]), section, variant);
  }

  /** After any prefix of the text the parser has not failed on, its
      variables are those `Tracks` gives. */
  lemma {:induction false} RunTracks(kinds: seq<LineKind>, variant: Variant)
    requires Run(kinds, variant).Some?
    ensures Tracks(kinds, variant, Run(kinds, variant).value)
  {
    if kinds != [] {
      var init := kinds[..|kinds| - 1];
      var kind := kinds[|kinds| - 1];
      assert kinds == init + [kind];
      RunTracks(init, variant);
      var st := Run(init, variant).value;
      match kind
      case Blank => QuietStepTracks(init, kind, variant, st);
      case TextLine(_) => QuietStepTracks(init, kind, variant, st);
      case SubsectionLine(t) => SubsectionStepTracks(init, t, variant, st);
      case SectionLine(t) => SectionStepTracks(init, t, variant, st);
    }
  }

  /** The two closing pushes turn the tracked variables into the outline,
      each closed section as the variant closes it and the last one whole. */
  lemma FinishTracks(kinds: seq<LineKind>, variant: Variant, st: ParseState)
    requires Tracks(kinds, variant, st) && Finish(st).Some?
    ensures var o := Outline(kinds);
      Finish(st) == Some(if o == [] then [] else ClosedAs(o[..|o| - 1], variant) + [o[|o| - 1]])
  {
    match LastWhere(kinds, IsSectionKind)
    case None =>
    case Some(p) =>
      var o := Outline(kinds);
      assert o[..|o| - 1] == Outline(kinds[..p]);
  }

  /** With the pending subsection attached, a successful parse is exactly
      the outline of the text: every section heading in order, each with
      its subsection headings in order, each subsection with the trimmed
      text lines after it, one per line. */
  lemma AttachedParseIsOutline(rawText: string)
    requires Parse(rawText, AttachPending).Some?
    ensures Parse(rawText, AttachPending).value == Outline(Kinds(Split(rawText, '\n')))
  {
    var kinds := Kinds(Split(rawText, '\n'));
    RunTracks(kinds, AttachPending);
    FinishTracks(kinds, AttachPending, Run(kinds, AttachPending).value);
    var o := Outline(kinds);
    if o != [] {
      assert o == o[..|o| - 1] + [o[|o| - 1]];
    }
  }

  /** The page as written shows the outline with the last subsection of
      every section but the final one missing; it fails on the same texts as
      the corrected parser. */
  lemma ParseAsWrittenDropsLastSubsections(rawText: string)
    ensures Parse(rawText, AsWritten).Some? <==> Parse(rawText, AttachPending).Some?
    ensures Parse(rawText, AsWritten).Some? ==>
      var (r, o) := (Parse(rawText, AsWritten).value, Outline(Kinds(Split(rawText, '\n'))));
      && |r| == |o|
      && forall i | 0 <= i < |o| :: r[i] == if i < |o| - 1 then DropLastSubsection(o[i]) else o[i]
  {
    VariantsFailAlike(rawText);
    if Parse(rawText, AsWritten).Some? {
      var kinds := Kinds(Split(rawText, '\n'));
      RunTracks(kinds, AsWritten);
      FinishTracks(kinds, AsWritten, Run(kinds, AsWritten).value);
      AsWrittenClosing(Outline(kinds));
    }
  }

  lemma VariantsFailAlike(rawText: string)
    ensures Parse(rawText, AsWritten).Some? <==> Parse(rawText, AttachPending).Some?
  {
    ParseOutcome(rawText, AsWritten);
    ParseOutcome(rawText, AttachPending);
  }

  /** The as-written closing, index by index. */
  lemma AsWrittenClosing(o: seq<Section>)
    ensures var r := if o == [] then [] else ClosedAs(o[..|o| - 1], AsWritten) + [o[|o| - 1]];
      && |r| == |o|
      && forall i | 0 <= i < |o| :: r[i] == if i < |o| - 1 then DropLastSubsection(o[i]) else o[i]
  {
  }

  lemma TrimmedAlready(line: string)
    requires line != [] && !IsWhiteSpace(line[0]) && !IsWhiteSpace(line[|line| - 1])
    ensures Trim(line) == line
  {
    assert TrimStart(line) == line;
    assert TrimEnd(line) == line;
  }

  lemma SubsectionHeadingExample(d: char, e: char, t: char)
    requires IsDigit(d) && IsDigit(e) && !IsWhiteSpace(t)
    ensures SectionHeading([d, '.', e, ' ', t]) == None
    ensures SubsectionHeading([d, '.', e, ' ', t]) == Some([t])
  {
    var line := [d, '.', e, ' ', t];
    assert Span(line, IsDigit) == [d];
    assert line[2..] == [e, ' ', t];
    assert Span(line[2..], IsDigit) == [e];
  }

  /** `d. t` is a section heading whose title is `t`. */
  lemma SectionLineExample(d: char, t: char)
    requires IsDigit(d) && !IsWhiteSpace(t)
    ensures Classify([d, '.', ' ', t]) == SectionLine([t])
  {
    var line := [d, '.', ' ', t];
    TrimmedAlready(line);
    assert Span(line, IsDigit) == [d];
  }

  /** `d.e t` is a subsection heading whose title is `t`. */
  lemma SubsectionLineExample(d: char, e: char, t: char)
    requires IsDigit(d) && IsDigit(e) && !IsWhiteSpace(t)
    ensures Classify([d, '.', e, ' ', t]) == SubsectionLine([t])
  {
    TrimmedAlready([d, '.', e, ' ', t]);
    SubsectionHeadingExample(d, e, t);
  }

  /** The three lines `"1. A"`, `"1.1 B"` and `"2. C"` (any digits and
      any one-character titles) are a section heading, a subsection
      heading and a section heading. */
  lemma ExampleKinds(d: char, e: char, f: char, a: char, b: char, c: char)
    requires IsDigit(d) && IsDigit(e) && IsDigit(f)
    requires !IsWhiteSpace(a) && !IsWhiteSpace(b) && !IsWhiteSpace(c)
    ensures Kinds(Split([d, '.', ' ', a, '\n', d, '.', e, ' ', b, '\n', f, '.', ' ', c], '\n'))
      == [SectionLine([a]), SubsectionLine([b]), SectionLine([c])]
  {
    var l0, l1, l2 := [d, '.', ' ', a], [d, '.', e, ' ', b], [f, '.', ' ', c];
    ExampleSplit(l0, l1, l2, [d, '.', ' ', a, '\n', d, '.', e, ' ', b, '\n', f, '.', ' ', c]);
    ExampleLineKinds(d, e, f, a, b, c);
  }

  lemma ExampleLineKinds(d: char, e: char, f: char, a: char, b: char, c: char)
    requires IsDigit(d) && IsDigit(e) && IsDigit(f)
    requires !IsWhiteSpace(a) && !IsWhiteSpace(b) && !IsWhiteSpace(c)
    ensures Kinds([[d, '.', ' ', a], [d, '.', e, ' ', b], [f, '.', ' ', c]])
      == [SectionLine([a]), SubsectionLine([b]), SectionLine([c])]
  {
    var lines := [[d, '.', ' ', a], [d, '.', e, ' ', b], [f, '.', ' ', c]];
    var want := [SectionLine([a]), SubsectionLine([b]), SectionLine([c])];
    forall i | 0 <= i < 3
      ensures Classify(lines[i]) == want[i]
    {
      if i == 0 {
        SectionLineExample(d, a);
      } else if i == 1 {
        SubsectionLineExample(d, e, b);
      } else {
        SectionLineExample(f, c);
      }
    }
    KindsFromEach(lines, want);
  }

  lemma KindsFromEach(lines: seq<string>, want: seq<LineKind>)
    requires |lines| == |want|
    requires forall i | 0 <= i < |lines| :: Classify(lines[i]) == want[i]
    ensures Kinds(lines) == want
  {
  }

  lemma ExampleSplit(l0: string, l1: string, l2: string, text: string)
    requires '\n' !in l0 && '\n' !in l1 && '\n' !in l2
    requires text == l0 + "\n" + l1 + "\n" + l2
    ensures Split(text, '\n') == [l0, l1, l2]
  {
    var parts := [l0, l1, l2];
    assert parts[1..] == [l1, l2] && parts[1..][1..] == [l2];
    assert Join([l2], "\n") == l2;
    assert Join([l1, l2], "\n") == l1 + "\n" + l2;
    assert Join(parts, "\n") == l0 + "\n" + (l1 + "\n" + l2);
    assert l0 + "\n" + (l1 + "\n" + l2) == l0 + "\n" + l1 + "\n" + l2;
    SplitJoin(parts, '\n');
    assert Split(Join(parts, "\n"), '\n') == parts;
  }

  lemma ExampleRun(a: string, b: string, c: string, variant: Variant)
    ensures Run([SectionLine(a), SubsectionLine(b), SectionLine(c)], variant)
      == Some(ParseState([Section(a, if variant == AttachPending then [Subsection(b, "")] else [])], Some(Section(c, [])), None))
  {
    var kinds := [SectionLine(a), SubsectionLine(b), SectionLine(c)];
    var st1 := ParseState([], Some(Section(a, [])), None);
    var st2 := st1.(pending := Some(Subsection(b, "")));
    assert kinds[..0] == [] && kinds[..3] == kinds;
    RunStep(kinds, 0, variant);
    assert Run(kinds[..1], variant) == Some(st1);
    RunStep(kinds, 1, variant);
    assert Run(kinds[..2], variant) == Some(st2);
    RunStep(kinds, 2, variant);
    assert [] + [Subsection(b, "")] == [Subsection(b, "")];
    assert Attach(st2.current, st2.pending) == Some(Section(a, [Subsection(b, "")]));
    if variant == AttachPending {
      assert Step(st2, kinds[2], variant) == Some(ParseState([] + [Section(a, [Subsection(b, "")])], Some(Section(c, [])), None));
      assert [] + [Section(a, [Subsection(b, "")])] == [Section(a, [Subsection(b, "")])];
    } else {
      assert Step(st2, kinds[2], variant) == Some(ParseState([] + [Section(a, [])], Some(Section(c, [])), None));
      assert [] + [Section(a, [])] == [Section(a, [])];
    }
  }

  /** The page as written loses a subsection: after a section heading, a
      subsection heading and another section heading, the first section has
      no subsection, while attaching the pending subsection keeps it. */
  lemma PendingSubsectionDropped(a: string, b: string, c: string)
    ensures var kinds := [SectionLine(a), SubsectionLine(b), SectionLine(c)];
      && Attachable(kinds) == 1
      && Run(kinds, AsWritten).Some? && Finish(Run(kinds, AsWritten).value) == Some([Section(a, []), Section(c, [])])
      && Run(kinds, AttachPending).Some?
      && Finish(Run(kinds, AttachPending).value) == Some([Section(a, [Subsection(b, "")]), Section(c, [])])
  {
    var kinds := [SectionLine(a), SubsectionLine(b), SectionLine(c)];
    ExampleRun(a, b, c, AsWritten);
    ExampleRun(a, b, c, AttachPending);
    assert kinds[..2][..1] == kinds[..1] && kinds[..1][..0] == [] && kinds[..3] == kinds;
    assert kinds[..1][0] == SectionLine(a) && kinds[..2][1] == SubsectionLine(b);
    assert HeadingTitles(kinds[..1]) == [a];
    assert Attachable(kinds[..1]) == 0;
    assert Attachable(kinds[..2]) == 1;
    assert [Section(a, [])] + [Section(c, [])] == [Section(a, []), Section(c, [])];
    assert [Section(a, [Subsection(b, "")])] + [Section(c, [])] == [Section(a, [Subsection(b, "")]), Section(c, [])];
  }

  /** The page text `"1. A\n1.1 B\n2. C"` (any digits, any one-character
      titles): as written the page shows section A with no subsection;
      attaching the pending subsection shows B under A. */
  lemma PendingSubsectionDroppedFromText(d: char, e: char, f: char, a: char, b: char, c: char)
    requires IsDigit(d) && IsDigit(e) && IsDigit(f)
    requires !IsWhiteSpace(a) && !IsWhiteSpace(b) && !IsWhiteSpace(c)
    ensures var text := [d, '.', ' ', a, '\n', d, '.', e, ' ', b, '\n', f, '.', ' ', c];
      && Parse(text, AsWritten) == Some([Section([a], []), Section([c], [])])
      && Parse(text, AttachPending) == Some([Section([a], [Subsection([b], "")]), Section([c], [])])
  {
    ExampleKinds(d, e, f, a, b, c);
    PendingSubsectionDropped([a], [b], [c]);
  }

  /** A character of a version in the path: `[\d.]`. */
  predicate IsVersionChar(c: char) {
    IsDigit(c) || c == '.'
  }

  /** `pathname.match(/^\/policies\/([a-zA-Z]+)-([\d.]+)$/)`, giving the
      type and the version. */
  function ParsePolicyPath(path: string): Option<(string, string)> {
    if |path| >= 10 && path[..10] == "/policies/" then
      var rest := path[10..];
      var policyType := Span(rest, IsAsciiLetter);
      if 1 <= |policyType| && |policyType| + 1 < |rest| && rest[|policyType|] == '-'
         && forall i | |policyType| + 1 <= i < |rest| :: IsVersionChar(rest[i])
      then Some((policyType, rest[|policyType| + 1..]))
      else None
    else None
  }

  /** A `content_url` is read back as its type and version exactly when the
      type is letters only and the version digits and dots only, both non
      empty. */
  lemma ContentUrlRoundTrip(policyType: string, version: string)
    ensures ParsePolicyPath(PoliciesController.ContentUrl(policyType, version)) == Some((policyType, version))
      <==> && |policyType| >= 1 && (forall i | 0 <= i < |policyType| :: IsAsciiLetter(policyType[i]))
           && |version| >= 1 && (forall i | 0 <= i < |version| :: IsVersionChar(version[i]))
  {
    var url := PoliciesController.ContentUrl(policyType, version);
    var rest := url[10..];
    assert rest == policyType + "-" + version;
    if |policyType| >= 1 && (forall i | 0 <= i < |policyType| :: IsAsciiLetter(policyType[i])) {
      SpanIsMaximal(rest, IsAsciiLetter, |policyType|);
      assert rest[..|policyType|] == policyType;
      assert rest[|policyType| + 1..] == version;
      assert forall i | |policyType| + 1 <= i < |rest| :: rest[i] == version[i - |policyType| - 1];
    }
  }

  /** Every path the page accepts is the `content_url` of what it reads
      from it. */
  lemma ParsedPathIsContentUrl(path: string)
    requires ParsePolicyPath(path).Some?
    ensures PoliciesController.ContentUrl(ParsePolicyPath(path).value.0, ParsePolicyPath(path).value.1) == path
  {
    var rest := path[10..];
    var t := Span(rest, IsAsciiLetter);
    assert rest == t + "-" + rest[|t| + 1..];
    assert path == path[..10] + rest;
  }
}
