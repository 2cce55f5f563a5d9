/**
 * `update_pr_config` in install.py: four `re.sub` calls that rewrite the
 * value after a key in config.yml.  Each pattern is `(<head>)\S+` where
 * the head is `key:\s*`, or for the tool `pull_request:\s*\n\s*tool:\s*`;
 * the replacement keeps group 1 (the head) and puts the new value after it.
 *
 * The regular expressions are modelled by what they match, not by a
 * general regex engine: a head matches at index i when its labels occur
 * there separated by whitespace as the pattern demands, and `\S+` then
 * takes the maximal non-whitespace run, which must not be empty.
 * Substitution scans left to right and resumes after each match.
 */
module ConfigFields {
  import opened Text
  import opened Results
  import opened Template
  import opened Options

  /** The head of a field pattern: `key:\s*`, or `section:\s*\n\s*key:\s*`. */
  datatype Head = Key(key: string) | Nested(section: string, key: string)

  const ToolField: Head := Nested("pull_request", "tool")
  const ConventionField: Head := Key("commit_convention")
  const BranchFormatField: Head := Key("branch_format")
  const BaseBranchField: Head := Key("default_base_branch")

  function Label(k: string): string { k + ":" }

  /** The label a match must start with. */
  function FirstLabel(h: Head): string {
    match h
    case Key(k) => Label(k)
    case Nested(section, _) => Label(section)
  }

  /** `s[a..b]` is all whitespace. */
  predicate SpaceRun(s: string, a: nat, b: nat)
    requires a <= b <= |s|
  {
    forall k :: a <= k < b ==> IsSpace(s[k])
  }

  /** `s[a..b]` holds no whitespace. */
  predicate WordRun(s: string, a: nat, b: nat)
    requires a <= b <= |s|
  {
    forall k :: a <= k < b ==> !IsSpace(s[k])
  }

  /** `s` holds no whitespace: a possible `\S+` value. */
  predicate NoSpace(s: string) {
    WordRun(s, 0, |s|)
  }

  /** `s[a..b]` holds a line break. */
  predicate LineBreakIn(s: string, a: nat, b: nat)
    requires a <= b <= |s|
  {
    exists k :: a <= k < b && s[k] == '\n'
  }

  /** The end of the non-whitespace run starting at `i` (`\S+`, greedy). */
  function SkipNonSpace(s: string, i: nat): (r: nat)
    requires i <= |s|
    ensures i <= r <= |s|
    ensures WordRun(s, i, r)
    ensures r < |s| ==> IsSpace(s[r])
    decreases |s| - i
  {
    if i == |s| || IsSpace(s[i]) then i else SkipNonSpace(s, i + 1)
  }

  /** Where group 1 (the head) of a match at `i` ends, if the head
      matches there.  For a nested head the whitespace between the two
      labels must hold a line break. */
  function HeadEnd(s: string, i: nat, h: Head): (r: Option<nat>)
    requires i <= |s|
    ensures r.Some? ==> OccursAt(s, FirstLabel(h), i) && i + |FirstLabel(h)| <= r.value <= |s|
    ensures r.Some? && r.value < |s| ==> !IsSpace(s[r.value])
  {
    var first := FirstLabel(h);
    if !OccursAt(s, first, i) then None
    else
      var w := SpaceRunEnd(s, i + |first|);
      match h
      case Key(_) => Some(w)
      case Nested(_, k) =>
        if LineBreakIn(s, i + |first|, w) && OccursAt(s, Label(k), w)
        then Some(SpaceRunEnd(s, w + |Label(k)|))
        else None
  }

  /** A match of `(<head>)\S+` at `i`: the end of group 1 and the end of
      the whole match. */
  function MatchAt(s: string, i: nat, h: Head): (r: Option<(nat, nat)>)
    requires i <= |s|
    ensures r.Some? ==> i < r.value.0 < r.value.1 <= |s|
    ensures r.Some? ==> WordRun(s, r.value.0, r.value.1)
    ensures r.Some? && r.value.1 < |s| ==> IsSpace(s[r.value.1])
  {
    match HeadEnd(s, i, h)
    case None => None
    case Some(g) =>
      var e := SkipNonSpace(s, g);
      if e == g then None else Some((g, e))
  }

  // ---------------------------------------------------------------------
  // Substitution as written: the template is `\1` + value

  /** `re.sub` from index `i` with a parsed template. */
  function SubFrom(s: string, i: nat, h: Head, ps: seq<Piece>): string
    requires i <= |s|
    decreases |s| - i
  {
    if i == |s| then []
    else match MatchAt(s, i, h)
      case Some(m) => Expand(ps, s[i..m.1], s[i..m.0]) + SubFrom(s, m.1, h, ps)
      case None => [s[i]] + SubFrom(s, i + 1, h, ps)
  }

  /** `re.sub(pattern, f'\\1{value}', s)`: the template is compiled first,
      so a bad template fails even when nothing matches. */
  function SubAsWritten(s: string, h: Head, value: string): (r: Result<string, TemplateError>)
    ensures r.Err? <==> Parse(ValueTemplate(value), 1).Err?
  {
    match Parse(ValueTemplate(value), 1)
    case Err(e) => Err(e)
    case Ok(ps) => Ok(SubFrom(s, 0, h, ps))
  }

  /** The four substitutions of `update_pr_config`, in order, as written:
      `branch_format` receives the convention name, like
      `commit_convention`. */
  function UpdatePrConfigAsWritten(content: string, tool: PrTool, convention: Convention,
                                   baseBranch: string): (r: Result<string, TemplateError>)
    ensures r.Err? <==> Parse(ValueTemplate(baseBranch), 1).Err?
  {
    NameTemplates(tool, convention);
    match SubAsWritten(content, ToolField, ToolName(tool))
    case Err(e) => Err(e)
    case Ok(c1) =>
      match SubAsWritten(c1, ConventionField, ConventionName(convention))
      case Err(e) => Err(e)
      case Ok(c2) =>
        match SubAsWritten(c2, BranchFormatField, ConventionName(convention))
        case Err(e) => Err(e)
        case Ok(c3) => SubAsWritten(c3, BaseBranchField, baseBranch)
  }

  /** The option names are safe values: their templates always compile. */
  lemma NameTemplates(tool: PrTool, convention: Convention)
    ensures Parse(ValueTemplate(ToolName(tool)), 1).Ok?
    ensures Parse(ValueTemplate(ConventionName(convention)), 1).Ok?
  {
    NamesSafe(ToolName(tool));
    NamesSafe(ConventionName(convention));
    SafeValueTemplate(ToolName(tool));
    SafeValueTemplate(ConventionName(convention));
  }

  lemma NamesSafe(s: string)
    requires s == ToolName(Gh) || s == ToolName(Az)
          || s == ConventionName(Conventional) || s == ConventionName(TicketPrefix)
    ensures SafeValue(s) && NoSpace(s) && !HasChar(s, ':') && |s| > 0
  {
    NamesAreLowerCase(s);
  }

  // ---------------------------------------------------------------------
  // Corrected substitution: the value is inserted literally

  /** Keeps each match's head and puts `value` in place of the old value. */
  function SetFrom(s: string, i: nat, h: Head, value: string): string
    requires i <= |s|
    decreases |s| - i
  {
    if i == |s| then []
    else match MatchAt(s, i, h)
      case Some(m) => s[i..m.0] + value + SetFrom(s, m.1, h, value)
      case None => [s[i]] + SetFrom(s, i + 1, h, value)
  }

  function SetField(s: string, h: Head, value: string): (r: string)
    ensures !Contains(s, FirstLabel(h)) ==> r == s
  {
    var r := SetFrom(s, 0, h, value);
    assert !Contains(s, FirstLabel(h)) ==> r == s by {
      if !Contains(s, FirstLabel(h)) {
        LabelAbsentUnchanged(s, 0, h, value);
        assert s[0..] == s;
      }
    }
    r
  }

  /** `update_pr_config` with every value inserted literally. */
  function UpdatePrConfig(content: string, tool: PrTool, convention: Convention,
                          baseBranch: string): (r: string)
    ensures (forall h | h in {ToolField, ConventionField, BranchFormatField, BaseBranchField}
               :: !Contains(content, FirstLabel(h))) ==> r == content
  {
    var c1 := SetField(content, ToolField, ToolName(tool));
    var c2 := SetField(c1, ConventionField, ConventionName(convention));
    var c3 := SetField(c2, BranchFormatField, ConventionName(convention));
    SetField(c3, BaseBranchField, baseBranch)
  }

  /** Without the head's first label there is no match, and nothing
      changes. */
  lemma {:induction false} LabelAbsentUnchanged(s: string, i: nat, h: Head, value: string)
    requires i <= |s|
    requires !Contains(s, FirstLabel(h))
    ensures SetFrom(s, i, h, value) == s[i..]
    decreases |s| - i
  {
    if i < |s| {
      assert !OccursAt(s, FirstLabel(h), i);
      LabelAbsentUnchanged(s, i + 1, h, value);
      assert [s[i]] + s[i + 1..] == s[i..];
    }
  }

  /** The corrected substitution is the template substitution with the
      value's characters as literal pieces, whatever the value holds. */
  lemma {:induction false} SetIsLiteralTemplate(s: string, i: nat, h: Head, value: string)
    requires i <= |s|
    ensures SetFrom(s, i, h, value) == SubFrom(s, i, h, [Group(1)] + Lits(value))
    decreases |s| - i
  {
    if i < |s| {
      match MatchAt(s, i, h)
      case Some(m) =>
        assert ([Group(1)] + Lits(value))[1..] == Lits(value);
        ExpandLits(value, s[i..m.1], s[i..m.0]);
        SetIsLiteralTemplate(s, m.1, h, value);
      case None =>
        SetIsLiteralTemplate(s, i + 1, h, value);
    }
  }

  /** For a safe value the as-written substitution is the corrected one. */
  lemma SafeSubstitution(s: string, h: Head, value: string)
    requires SafeValue(value)
    ensures SubAsWritten(s, h, value) == Ok(SetField(s, h, value))
  {
    SafeValueTemplate(value);
    SetIsLiteralTemplate(s, 0, h, value);
  }

  /** For a base branch without a backslash and not starting with a digit
      the installer computes the intended update. */
  lemma AsWrittenAgreesWhenSafe(content: string, tool: PrTool, convention: Convention,
                                baseBranch: string)
    requires SafeValue(baseBranch)
    ensures UpdatePrConfigAsWritten(content, tool, convention, baseBranch)
            == Ok(UpdatePrConfig(content, tool, convention, baseBranch))
  {
    NamesSafe(ToolName(tool));
    NamesSafe(ConventionName(convention));
    var c1 := SetField(content, ToolField, ToolName(tool));
    SafeSubstitution(content, ToolField, ToolName(tool));
    var c2 := SetField(c1, ConventionField, ConventionName(convention));
    SafeSubstitution(c1, ConventionField, ConventionName(convention));
    var c3 := SetField(c2, BranchFormatField, ConventionName(convention));
    SafeSubstitution(c2, BranchFormatField, ConventionName(convention));
    SafeSubstitution(c3, BaseBranchField, baseBranch);
  }

  // ---------------------------------------------------------------------
  // The partner view: a configuration text as plain characters and fields

  /** A piece of the scanned text: a character no match starts at, or a
      matched field split into its head (group 1) and its value. */
  datatype Segment = Plain(c: char) | Field(head: string, value: string)

  function SegmentText(seg: Segment): string {
    match seg
    case Plain(c) => [c]
    case Field(head, value) => head + value
  }

  function Flatten(segs: seq<Segment>): string {
    if |segs| == 0 then [] else SegmentText(segs[0]) + Flatten(segs[1..])
  }

  lemma SlicesJoin(s: string, a: nat, b: nat, c: nat)
    requires a <= b <= c <= |s|
    ensures s[a..b] + s[b..c] + s[c..] == s[a..]
  {
  }

  lemma FlattenCons(seg: Segment, rest: seq<Segment>)
    ensures Flatten([seg] + rest) == SegmentText(seg) + Flatten(rest)
  {
    assert ([seg] + rest)[1..] == rest;
  }

  /** Every field with its value replaced, everything else kept. */
  function WithValue(segs: seq<Segment>, value: string): (r: seq<Segment>)
    ensures |r| == |segs|
    ensures forall k :: 0 <= k < |segs| ==>
      r[k] == (if segs[k].Field? then Field(segs[k].head, value) else segs[k])
  {
    if |segs| == 0 then []
    else
      var seg := if segs[0].Field? then Field(segs[0].head, value) else segs[0];
      [seg] + WithValue(segs[1..], value)
  }

  /** The head text of a field: the label, then whitespace; for a nested
      head, whitespace holding a line break and the second label between. */
  predicate HeadShape(h: Head, head: string) {
    var first := FirstLabel(h);
    && OccursAt(head, first, 0)
    && match h
       case Key(_) => SpaceRun(head, |first|, |head|)
       case Nested(_, k) =>
         exists w :: |first| <= w && w + |Label(k)| <= |head|
           && SpaceRun(head, |first|, w) && LineBreakIn(head, |first|, w)
           && OccursAt(head, Label(k), w)
           && SpaceRun(head, w + |Label(k)|, |head|)
  }

  /** A field as the pattern takes it: a well-shaped head and a maximal,
      nonempty run of non-whitespace. */
  predicate FieldShape(h: Head, seg: Segment)
    requires seg.Field?
  {
    HeadShape(h, seg.head) && |seg.value| > 0 && NoSpace(seg.value)
  }

  function FirstChar(seg: Segment): char {
    match seg
    case Plain(c) => c
    case Field(head, value) => if |head| > 0 then head[0] else ' '
  }

  /** Splits the text from `i` into plain characters and matched fields. */
  function Scan(s: string, i: nat, h: Head): (segs: seq<Segment>)
    requires i <= |s|
    decreases |s| - i
  {
    if i == |s| then []
    else match MatchAt(s, i, h)
      case Some(m) => [Field(s[i..m.0], s[m.0..m.1])] + Scan(s, m.1, h)
      case None => [Plain(s[i])] + Scan(s, i + 1, h)
  }

  /** Scanning loses nothing: the segments spell the text. */
  lemma {:induction false} ScanFlatten(s: string, i: nat, h: Head)
    requires i <= |s|
    ensures Flatten(Scan(s, i, h)) == s[i..]
    decreases |s| - i
  {
    if i < |s| {
      match MatchAt(s, i, h)
      case Some(m) =>
        ScanFlatten(s, m.1, h);
        FieldStep(s, i, m.0, m.1, Scan(s, m.1, h));
      case None =>
        ScanFlatten(s, i + 1, h);
        PlainStep(s, i, Scan(s, i + 1, h));
    }
  }

  lemma FieldStep(s: string, i: nat, g: nat, e: nat, rest: seq<Segment>)
    requires i <= g <= e <= |s| && Flatten(rest) == s[e..]
    ensures Flatten([Field(s[i..g], s[g..e])] + rest) == s[i..]
  {
    FlattenCons(Field(s[i..g], s[g..e]), rest);
    SlicesJoin(s, i, g, e);
  }

  lemma PlainStep(s: string, i: nat, rest: seq<Segment>)
    requires i < |s| && Flatten(rest) == s[i + 1..]
    ensures Flatten([Plain(s[i])] + rest) == s[i..]
  {
    FlattenCons(Plain(s[i]), rest);
    assert [s[i]] + s[i + 1..] == s[i..];
  }

  /** The first segment starts with the first character. */
  lemma ScanFirst(s: string, i: nat, h: Head)
    requires i < |s|
    ensures |Scan(s, i, h)| > 0 && FirstChar(Scan(s, i, h)[0]) == s[i]
  {
    match MatchAt(s, i, h)
    case Some(m) =>
      assert s[i..m.0][0] == s[i];
    case None =>
  }

  /** The whitespace run is determined by where it starts. */
  lemma SpaceRunEndUnique(s: string, i: nat, r: nat)
    requires i <= r <= |s|
    requires SpaceRun(s, i, r)
    requires r < |s| ==> !IsSpace(s[r])
    ensures SpaceRunEnd(s, i) == r
  {
  }

  lemma SubSlice(s: string, i: nat, g: nat, a: nat, b: nat)
    requires i <= g <= |s| && a <= b <= g - i
    ensures s[i..g][a..b] == s[i + a..i + b]
  {
    forall j | 0 <= j < b - a
      ensures s[i..g][a..b][j] == s[i + a..i + b][j]
    {
      assert s[i..g][a..b][j] == s[i + a + j];
    }
  }

  lemma KeyHeadShape(s: string, i: nat, k: string, g: nat)
    requires OccursAt(s, Label(k), i)
    requires g == SpaceRunEnd(s, i + |Label(k)|)
    ensures HeadShape(Key(k), s[i..g])
  {
    var head := s[i..g];
    SubSlice(s, i, g, 0, |Label(k)|);
    assert forall j :: 0 <= j < |head| ==> head[j] == s[i + j];
  }

  lemma NestedHeadShape(s: string, i: nat, section: string, k: string, w: nat, g: nat)
    requires OccursAt(s, Label(section), i) && OccursAt(s, Label(k), w)
    requires i + |Label(section)| <= w && w + |Label(k)| <= g <= |s|
    requires SpaceRun(s, i + |Label(section)|, w)
    requires LineBreakIn(s, i + |Label(section)|, w)
    requires SpaceRun(s, w + |Label(k)|, g)
    ensures HeadShape(Nested(section, k), s[i..g])
  {
    var head := s[i..g];
    var first := Label(section);
    var l := Label(k);
    SubSlice(s, i, g, 0, |first|);
    assert OccursAt(head, first, 0);
    SliceSpaceRun(s, i, g, |first|, w - i);
    SliceLineBreak(s, i, g, |first|, w - i);
    SubSlice(s, i, g, w - i, w - i + |l|);
    assert OccursAt(head, l, w - i);
    SliceSpaceRun(s, i, g, w - i + |l|, g - i);
  }

  lemma SliceSpaceRun(s: string, i: nat, g: nat, a: nat, b: nat)
    requires i <= g <= |s| && a <= b <= g - i
    requires SpaceRun(s, i + a, i + b)
    ensures SpaceRun(s[i..g], a, b)
  {
    forall j | a <= j < b
      ensures IsSpace(s[i..g][j])
    {
      assert s[i..g][j] == s[i + j];
    }
  }

  lemma SliceLineBreak(s: string, i: nat, g: nat, a: nat, b: nat)
    requires i <= g <= |s| && a <= b <= g - i
    requires LineBreakIn(s, i + a, i + b)
    ensures LineBreakIn(s[i..g], a, b)
  {
    var n :| i + a <= n < i + b && s[n] == '\n';
    assert s[i..g][n - i] == '\n';
  }

  /** The head of every match has the shape its pattern describes. */
  lemma MatchedHeadShape(s: string, i: nat, h: Head)
    requires i <= |s|
    requires MatchAt(s, i, h).Some?
    ensures HeadShape(h, s[i..MatchAt(s, i, h).value.0])
  {
    var g := HeadEnd(s, i, h).value;
    assert MatchAt(s, i, h).value.0 == g;
    var w := SpaceRunEnd(s, i + |FirstLabel(h)|);
    match h
    case Key(k) =>
      KeyHeadShape(s, i, k, g);
    case Nested(section, k) =>
      NestedHeadShape(s, i, section, k, w, g);
  }

  lemma WordRunSlice(s: string, a: nat, b: nat)
    requires a <= b <= |s| && WordRun(s, a, b)
    ensures NoSpace(s[a..b])
  {
    assert forall j :: 0 <= j < b - a ==> s[a..b][j] == s[a + j];
  }

  predicate FieldsShaped(h: Head, segs: seq<Segment>) {
    forall k :: 0 <= k < |segs| && segs[k].Field? ==> FieldShape(h, segs[k])
  }

  /** Whatever follows a field starts with whitespace. */
  predicate ValuesMaximal(segs: seq<Segment>) {
    forall k :: 0 <= k < |segs| - 1 && segs[k].Field? ==> IsSpace(FirstChar(segs[k + 1]))
  }

  /** Every field the scan finds is well shaped, and the text after it,
      if any, starts with whitespace: the value is the whole run. */
  lemma {:induction false} ScanShape(s: string, i: nat, h: Head)
    requires i <= |s|
    ensures FieldsShaped(h, Scan(s, i, h))
    ensures ValuesMaximal(Scan(s, i, h))
    decreases |s| - i
  {
    if i < |s| {
      var segs := Scan(s, i, h);
      match MatchAt(s, i, h)
      case Some(m) =>
        var rest := Scan(s, m.1, h);
        ScanShape(s, m.1, h);
        assert segs == [Field(s[i..m.0], s[m.0..m.1])] + rest;
        MatchedHeadShape(s, i, h);
        WordRunSlice(s, m.0, m.1);
        assert FieldShape(h, segs[0]);
        ConsShaped(h, segs[0], rest);
        if m.1 < |s| {
          ScanFirst(s, m.1, h);
          assert IsSpace(FirstChar(rest[0]));
        } else {
          assert rest == [];
        }
        ConsMaximal(segs[0], rest);
      case None =>
        var rest := Scan(s, i + 1, h);
        ScanShape(s, i + 1, h);
        assert segs == [Plain(s[i])] + rest;
        ConsShaped(h, segs[0], rest);
        ConsMaximal(segs[0], rest);
    }
  }

  lemma ConsShaped(h: Head, seg: Segment, rest: seq<Segment>)
    requires seg.Field? ==> FieldShape(h, seg)
    requires FieldsShaped(h, rest)
    ensures FieldsShaped(h, [seg] + rest)
  {
    var segs := [seg] + rest;
    forall k | 0 <= k < |segs| && segs[k].Field?
      ensures FieldShape(h, segs[k])
    {
      if k > 0 {
        assert segs[k] == rest[k - 1];
      }
    }
  }

  lemma ConsMaximal(seg: Segment, rest: seq<Segment>)
    requires seg.Field? && |rest| > 0 ==> IsSpace(FirstChar(rest[0]))
    requires ValuesMaximal(rest)
    ensures ValuesMaximal([seg] + rest)
  {
    var segs := [seg] + rest;
    forall k | 0 <= k < |segs| - 1 && segs[k].Field?
      ensures IsSpace(FirstChar(segs[k + 1]))
    {
      assert segs[k + 1] == rest[k];
      if k > 0 {
        assert segs[k] == rest[k - 1];
      }
    }
  }

  /** The substitution is the scan with every field's value replaced:
      heads (key and whitespace) and all text outside matches survive. */
  lemma {:induction false} SetIsRetarget(s: string, i: nat, h: Head, value: string)
    requires i <= |s|
    ensures SetFrom(s, i, h, value) == Flatten(WithValue(Scan(s, i, h), value))
    decreases |s| - i
  {
    if i < |s| {
      var segs := Scan(s, i, h);
      var r := WithValue(segs, value);
      assert r[1..] == WithValue(segs[1..], value);
      match MatchAt(s, i, h)
      case Some(m) =>
        assert segs[1..] == Scan(s, m.1, h);
        SetIsRetarget(s, m.1, h, value);
      case None =>
        assert segs[1..] == Scan(s, i + 1, h);
        SetIsRetarget(s, i + 1, h, value);
    }
  }

  // ---------------------------------------------------------------------
  // A configuration holding one field

  /** A text that is exactly one `key: value` field is one match, whose
      group 1 is the key with its whitespace. */
  lemma SingleFieldMatch(k: string, ws: string, prior: string)
    requires SpaceRun(ws, 0, |ws|) && |prior| > 0 && NoSpace(prior)
    ensures MatchAt(Label(k) + ws + prior, 0, Key(k))
            == Some((|Label(k) + ws|, |Label(k) + ws + prior|))
  {
    var s := Label(k) + ws + prior;
    var a := |Label(k)|;
    assert s[0..a] == Label(k);
    assert forall j :: 0 <= j < |ws| ==> s[a + j] == ws[j];
    SpaceRunEndUnique(s, a, a + |ws|);
    assert forall j :: 0 <= j < |prior| ==> s[a + |ws| + j] == prior[j];
    SkipNonSpaceEnd(s, a + |ws|);
  }

  /** A head that ends before a non-whitespace character starts a match
      whose value is the whole run from that character. */
  lemma MatchFromHead(s: string, i: nat, h: Head, g: nat)
    requires i <= |s| && HeadEnd(s, i, h) == Some(g)
    requires g < |s| && !IsSpace(s[g])
    ensures MatchAt(s, i, h) == Some((g, SkipNonSpace(s, g)))
  {
    assert SkipNonSpace(s, g) == SkipNonSpace(s, g + 1);
  }

  /** Every key field present is found: where `key:` and whitespace are
      followed by a non-whitespace character, the pattern matches, group 1
      ends at that character and the value is the whole run after it. */
  lemma KeyMatchFound(s: string, i: nat, k: string, g: nat)
    requires OccursAt(s, Label(k), i)
    requires i + |Label(k)| <= g < |s|
    requires SpaceRun(s, i + |Label(k)|, g) && !IsSpace(s[g])
    ensures MatchAt(s, i, Key(k)) == Some((g, SkipNonSpace(s, g)))
  {
    SpaceRunEndUnique(s, i + |Label(k)|, g);
    MatchFromHead(s, i, Key(k), g);
  }

  lemma NestedHeadEnd(s: string, i: nat, section: string, k: string, w: nat, g: nat)
    requires OccursAt(s, Label(section), i) && OccursAt(s, Label(k), w)
    requires i + |Label(section)| <= w
    requires SpaceRunEnd(s, i + |Label(section)|) == w
    requires LineBreakIn(s, i + |Label(section)|, w)
    requires w + |Label(k)| <= |s| && SpaceRunEnd(s, w + |Label(k)|) == g
    ensures HeadEnd(s, i, Nested(section, k)) == Some(g)
  {
    var h := Nested(section, k);
    assert FirstLabel(h) == Label(section);
    var w' := SpaceRunEnd(s, i + |FirstLabel(h)|);
    assert w' == w;
    assert LineBreakIn(s, i + |FirstLabel(h)|, w') && OccursAt(s, Label(h.key), w');
  }

  /** Every nested field present is found: `section:`, whitespace holding
      a line break, `key:`, whitespace and a non-whitespace character match
      the nested pattern, for a key that does not itself start with
      whitespace (as `tool` does not). */
  lemma NestedMatchFound(s: string, i: nat, section: string, k: string, w: nat, g: nat)
    requires OccursAt(s, Label(section), i) && OccursAt(s, Label(k), w)
    requires !IsSpace(Label(k)[0])
    requires i + |Label(section)| <= w
    requires SpaceRun(s, i + |Label(section)|, w) && LineBreakIn(s, i + |Label(section)|, w)
    requires w + |Label(k)| <= g < |s|
    requires SpaceRun(s, w + |Label(k)|, g) && !IsSpace(s[g])
    ensures MatchAt(s, i, Nested(section, k)) == Some((g, SkipNonSpace(s, g)))
  {
    assert s[w..w + |Label(k)|][0] == s[w];
    SpaceRunEndUnique(s, i + |Label(section)|, w);
    SpaceRunEndUnique(s, w + |Label(k)|, g);
    NestedHeadEnd(s, i, section, k, w, g);
    MatchFromHead(s, i, Nested(section, k), g);
  }

  /** A text that is exactly one nested field is one match. */
  lemma NestedSingleMatch(section: string, ws1: string, k: string, ws2: string, prior: string)
    requires SpaceRun(ws1, 0, |ws1|) && HasChar(ws1, '\n') && SpaceRun(ws2, 0, |ws2|)
    requires |prior| > 0 && NoSpace(prior)
    requires !IsSpace(Label(k)[0])
    ensures var head := Label(section) + ws1 + Label(k) + ws2;
            MatchAt(head + prior, 0, Nested(section, k)) == Some((|head|, |head + prior|))
  {
    var p1 := Label(section) + ws1;
    var p2 := p1 + Label(k);
    var head := p2 + ws2;
    var s := head + prior;
    var a := |Label(section)|;
    var w := |p1|;
    assert s[0..a] == Label(section);
    assert forall j :: 0 <= j < |ws1| ==> s[a + j] == ws1[j];
    var n :| 0 <= n < |ws1| && ws1[n] == '\n';
    assert s[a + n] == '\n';
    assert s[w..w + |Label(k)|] == Label(k);
    assert forall j :: 0 <= j < |ws2| ==> s[|p2| + j] == ws2[j];
    assert forall j :: 0 <= j < |prior| ==> s[|head| + j] == prior[j];
    NestedMatchFound(s, 0, section, k, w, |head|);
    SkipNonSpaceEnd(s, |head|);
  }

  /** When the whole text is one match, the corrected update keeps group 1
      and puts the value after it. */
  lemma WholeMatchSet(s: string, h: Head, g: nat, value: string)
    requires g <= |s| && MatchAt(s, 0, h) == Some((g, |s|))
    ensures SetField(s, h, value) == s[..g] + value
  {
    assert SetFrom(s, 0, h, value) == s[0..g] + value + SetFrom(s, |s|, h, value);
  }

  /** A text that is exactly one nested field has its value replaced and
      everything else, line break and indentation included, kept. */
  lemma NestedFieldSet(section: string, ws1: string, k: string, ws2: string, prior: string,
                       value: string)
    requires SpaceRun(ws1, 0, |ws1|) && HasChar(ws1, '\n') && SpaceRun(ws2, 0, |ws2|)
    requires |prior| > 0 && NoSpace(prior)
    requires !IsSpace(Label(k)[0])
    ensures SetField(Label(section) + ws1 + Label(k) + ws2 + prior, Nested(section, k), value)
            == Label(section) + ws1 + Label(k) + ws2 + value
  {
    var head := Label(section) + ws1 + Label(k) + ws2;
    NestedSingleMatch(section, ws1, k, ws2, prior);
    WholeMatchSet(head + prior, Nested(section, k), |head|, value);
    assert (head + prior)[..|head|] == head;
  }

  /** The tool field as a configuration usually holds it: on its own line,
      indented under `pull_request:`, it receives the chosen tool. */
  lemma ToolFieldSet(ws1: string, prior: string, tool: PrTool)
    requires ws1 == "\n  "
    requires |prior| > 0 && NoSpace(prior)
    ensures SetField(Label(ToolField.section) + ws1 + Label(ToolField.key) + " " + prior,
                     ToolField, ToolName(tool))
            == Label(ToolField.section) + ws1 + Label(ToolField.key) + " " + ToolName(tool)
  {
    assert ws1[0] == '\n';
    assert SpaceRun(" ", 0, 1);
    NestedFieldSet(ToolField.section, ws1, ToolField.key, " ", prior, ToolName(tool));
  }

  lemma SkipNonSpaceEnd(s: string, i: nat)
    requires i <= |s| && WordRun(s, i, |s|)
    ensures SkipNonSpace(s, i) == |s|
  {
  }

  lemma SingleFieldSub(k: string, ws: string, prior: string, ps: seq<Piece>)
    requires SpaceRun(ws, 0, |ws|) && |prior| > 0 && NoSpace(prior)
    ensures SubFrom(Label(k) + ws + prior, 0, Key(k), ps)
            == Expand(ps, Label(k) + ws + prior, Label(k) + ws)
  {
    var s := Label(k) + ws + prior;
    SingleFieldMatch(k, ws, prior);
    assert s[0..|Label(k) + ws|] == Label(k) + ws;
    assert s[0..|s|] == s;
  }

  lemma SingleFieldSet(k: string, ws: string, prior: string, value: string)
    requires SpaceRun(ws, 0, |ws|) && |prior| > 0 && NoSpace(prior)
    ensures SetField(Label(k) + ws + prior, Key(k), value) == Label(k) + ws + value
  {
    var s := Label(k) + ws + prior;
    SetIsLiteralTemplate(s, 0, Key(k), value);
    SingleFieldSub(k, ws, prior, [Group(1)] + Lits(value));
    assert ([Group(1)] + Lits(value))[1..] == Lits(value);
    ExpandLits(value, s, Label(k) + ws);
  }

  /** A label ending in `:` cannot occur where the text has no colon to end it. */
  lemma LabelNotAtColons(s: string, p: nat, lab: string)
    requires |lab| > 0 && lab[|lab| - 1] == ':'
    requires forall j :: 0 <= j < |s| && s[j] == ':' ==> j == p
    requires p < |s|
    requires p + 1 < |lab| || s[p + 1 - |lab|..p + 1] != lab
    ensures !Contains(s, lab)
  {
    forall i | 0 <= i <= |s| - |lab|
      ensures !OccursAt(s, lab, i)
    {
      assert s[i..i + |lab|][|lab| - 1] == s[i + |lab| - 1];
    }
  }

  /** The text `key: value` where `value` has no colon has its only colon
      right after the key. */
  lemma OneColon(k: string, value: string)
    requires !HasChar(k, ':') && !HasChar(value, ':')
    ensures forall j :: 0 <= j < |Label(k) + " " + value| && (Label(k) + " " + value)[j] == ':' ==> j == |k|
  {
    var s := Label(k) + " " + value;
    assert forall j :: 0 <= j < |k| ==> s[j] == k[j];
    assert s[|k|] == ':' && s[|k| + 1] == ' ';
    assert forall j :: |k| + 2 <= j < |s| ==> s[j] == value[j - |k| - 2];
  }

  /** A label is absent from a one-field line `key: value` unless its key
      ends the line's key. */
  lemma LabelAbsentFromLine(k: string, value: string, other: string)
    requires !HasChar(k, ':') && !HasChar(value, ':') && |other| > 0
    requires |other| > |k| || k[|k| - |other|] != Label(other)[0]
    ensures !Contains(Label(k) + " " + value, Label(other))
  {
    var s := Label(k) + " " + value;
    OneColon(k, value);
    if |other| <= |k| {
      assert s[|k| - |other|..|k| + 1][0] == k[|k| - |other|];
    }
    LabelNotAtColons(s, |k|, Label(other));
  }

  /** The four keys hold no colon, and none ends another. */
  lemma KeyFacts()
    ensures forall h | h in {ToolField, ConventionField, BranchFormatField, BaseBranchField} ::
      !HasChar(h.key, ':') && (h.Nested? ==> !HasChar(h.section, ':'))
    ensures BranchFormatField.key[1] != Label(ToolField.section)[0]
    ensures BaseBranchField.key[7] != Label(ToolField.section)[0]
    ensures BaseBranchField.key[2] != Label(ConventionField.key)[0]
    ensures BaseBranchField.key[6] != Label(BranchFormatField.key)[0]
  {
  }

  /** As written, too, text without the head's first label has no match,
      whatever the template. */
  lemma {:induction false} SubLabelAbsentUnchanged(s: string, i: nat, h: Head, ps: seq<Piece>)
    requires i <= |s|
    requires !Contains(s, FirstLabel(h))
    ensures SubFrom(s, i, h, ps) == s[i..]
    decreases |s| - i
  {
    if i < |s| {
      assert !OccursAt(s, FirstLabel(h), i);
      SubLabelAbsentUnchanged(s, i + 1, h, ps);
      assert [s[i]] + s[i + 1..] == s[i..];
    }
  }

  /** `branch_format` receives the convention name: in a configuration
      whose only field is `branch_format`, the installer writes the chosen
      convention there whenever the base-branch template compiles (the
      only way the update can fail), and so does the corrected update. */
  lemma BranchFormatGetsConvention(prior: string, tool: PrTool, convention: Convention,
                                   baseBranch: string)
    requires |prior| > 0 && NoSpace(prior) && !HasChar(prior, ':')
    ensures Parse(ValueTemplate(baseBranch), 1).Ok? ==>
            UpdatePrConfigAsWritten(Label(BranchFormatField.key) + " " + prior, tool, convention, baseBranch)
            == Ok(Label(BranchFormatField.key) + " " + ConventionName(convention))
    ensures UpdatePrConfig(Label(BranchFormatField.key) + " " + prior, tool, convention, baseBranch)
            == Label(BranchFormatField.key) + " " + ConventionName(convention)
  {
    var k := BranchFormatField.key;
    var content := Label(k) + " " + prior;
    KeyFacts();
    LabelAbsentFromLine(k, prior, ToolField.section);
    LabelAbsentFromLine(k, prior, ConventionField.key);
    var name := ConventionName(convention);
    NamesSafe(name);
    NamesSafe(ToolName(tool));
    assert SpaceRun(" ", 0, 1);
    SingleFieldSet(k, " ", prior, name);
    var updated := Label(k) + " " + name;
    LabelAbsentFromLine(k, name, BaseBranchField.key);
    SafeSubstitution(content, ToolField, ToolName(tool));
    SafeSubstitution(content, ConventionField, name);
    SafeSubstitution(content, BranchFormatField, name);
    match Parse(ValueTemplate(baseBranch), 1)
    case Ok(ps) =>
      SubLabelAbsentUnchanged(updated, 0, BaseBranchField, ps);
      assert updated[0..] == updated;
    case Err(_) =>
  }

  // ---------------------------------------------------------------------
  // Base branch names the template misreads

  /** The only field of `default_base_branch: <prior>` is the base branch:
      the three earlier substitutions leave it alone. */
  lemma OnlyBaseBranchField(prior: string, tool: PrTool, convention: Convention)
    requires |prior| > 0 && NoSpace(prior) && !HasChar(prior, ':')
    ensures forall h | h in {ToolField, ConventionField, BranchFormatField} ::
      !Contains(Label(BaseBranchField.key) + " " + prior, FirstLabel(h))
  {
    var k := BaseBranchField.key;
    KeyFacts();
    LabelAbsentFromLine(k, prior, ToolField.section);
    LabelAbsentFromLine(k, prior, ConventionField.key);
    LabelAbsentFromLine(k, prior, BranchFormatField.key);
  }

  lemma ExpandLitThenLits(c: char, rest: string, whole: string, group1: string)
    ensures Expand([Lit(c)] + Lits(rest), whole, group1) == [c] + rest
  {
    assert ([Lit(c)] + Lits(rest))[1..] == Lits(rest);
    ExpandLits(rest, whole, group1);
  }

  /** A base branch starting with two octal digits (such as `2024`)
      completes the escape `\1dd` to one character: as written, the whole
      field, key included, is replaced by that character and the rest of
      the name, while the intended update keeps the key. */
  lemma OctalBaseBranchReplacesField(prior: string, tool: PrTool, convention: Convention,
                                     baseBranch: string)
    requires |prior| > 0 && NoSpace(prior) && !HasChar(prior, ':')
    requires |baseBranch| >= 2 && IsOctal(baseBranch[0]) && IsOctal(baseBranch[1])
    requires forall k :: 2 <= k < |baseBranch| ==> baseBranch[k] != '\\'
    ensures UpdatePrConfigAsWritten(Label(BaseBranchField.key) + " " + prior, tool, convention, baseBranch)
            == Ok([(64 + 8 * DigitValue(baseBranch[0]) + DigitValue(baseBranch[1])) as char]
                  + baseBranch[2..])
    ensures UpdatePrConfig(Label(BaseBranchField.key) + " " + prior, tool, convention, baseBranch)
            == Label(BaseBranchField.key) + " " + baseBranch
  {
    var k := BaseBranchField.key;
    var content := Label(k) + " " + prior;
    OnlyBaseBranchField(prior, tool, convention);
    NamesSafe(ToolName(tool));
    NamesSafe(ConventionName(convention));
    SafeSubstitution(content, ToolField, ToolName(tool));
    SafeSubstitution(content, ConventionField, ConventionName(convention));
    SafeSubstitution(content, BranchFormatField, ConventionName(convention));
    OctalValueSwallowsGroup(baseBranch);
    var c := (64 + 8 * DigitValue(baseBranch[0]) + DigitValue(baseBranch[1])) as char;
    assert SpaceRun(" ", 0, 1);
    SingleFieldSub(k, " ", prior, [Lit(c)] + Lits(baseBranch[2..]));
    ExpandLitThenLits(c, baseBranch[2..], content, Label(k) + " ");
    SingleFieldSet(k, " ", prior, baseBranch);
  }

  /** The concrete case: base branch `2024` turns the field into `P24`. */
  lemma Year2024Facts(baseBranch: string)
    requires baseBranch == "2024"
    ensures |baseBranch| >= 2 && IsOctal(baseBranch[0]) && IsOctal(baseBranch[1])
    ensures forall k :: 2 <= k < |baseBranch| ==> baseBranch[k] != '\\'
    ensures [(64 + 8 * DigitValue(baseBranch[0]) + DigitValue(baseBranch[1])) as char]
            + baseBranch[2..] == "P24"
  {
    assert baseBranch[2..] == "24";
  }

  lemma Year2024BaseBranch(prior: string, tool: PrTool, convention: Convention, baseBranch: string)
    requires |prior| > 0 && NoSpace(prior) && !HasChar(prior, ':')
    requires baseBranch == "2024"
    ensures UpdatePrConfigAsWritten(Label(BaseBranchField.key) + " " + prior, tool, convention, baseBranch)
            == Ok("P24")
    ensures UpdatePrConfig(Label(BaseBranchField.key) + " " + prior, tool, convention, baseBranch)
            == Label(BaseBranchField.key) + " " + baseBranch
  {
    Year2024Facts(baseBranch);
    OctalBaseBranchReplacesField(prior, tool, convention, baseBranch);
  }

  /** A base branch starting with a digit that does not complete an octal
      escape (such as `1.0`) makes `\1d` a reference to group 1d, which does
      not exist: as written, the update raises for every configuration,
      while the intended update always yields a text. */
  lemma DigitBaseBranchRejected(content: string, tool: PrTool, convention: Convention,
                                baseBranch: string)
    requires |baseBranch| >= 1 && IsDigit(baseBranch[0])
    requires !IsOctal(baseBranch[0]) || |baseBranch| == 1 || !IsOctal(baseBranch[1])
    ensures UpdatePrConfigAsWritten(content, tool, convention, baseBranch).Err?
  {
    DigitValueRejected(baseBranch);
  }

  /** The concrete case: base branch `1.0`. */
  lemma ReleaseBaseBranch(content: string, tool: PrTool, convention: Convention, baseBranch: string)
    requires baseBranch == "1.0"
    ensures UpdatePrConfigAsWritten(content, tool, convention, baseBranch).Err?
  {
    DigitBaseBranchRejected(content, tool, convention, baseBranch);
  }
}
