/**
 * The installer's prompt answers (step 3 and steps 6-7 of `main` in
 * install.py): free-form responses decoded into closed option sets, each
 * with a default and a warning on unrecognised input.
 */
module Options {
  import opened Text

  datatype PrTool = Gh | Az
  datatype Convention = Conventional | TicketPrefix

  /** The spelling the installer prompts for and writes into config.yml. */
  function ToolName(t: PrTool): string {
    match t
    case Gh => "gh"
    case Az => "az"
  }

  function ConventionName(c: Convention): string {
    match c
    case Conventional => "conventional"
    case TicketPrefix => "ticket-prefix"
  }

  /** A decoded option and whether the unknown-value warning was printed. */
  datatype Choice<T> = Choice(value: T, warned: bool)

  /** `input(...).strip().lower() or "gh"`, then the fallback to `gh` with
      a warning for anything outside {gh, az}. */
  function DecodePrTool(raw: string): (c: Choice<PrTool>)
    ensures Normalize(raw) == [] ==> c == Choice(Gh, false)
    ensures Normalize(raw) != [] ==> (c.warned <==> forall t: PrTool :: ToolName(t) != Normalize(raw))
    ensures !c.warned && Normalize(raw) != [] ==> ToolName(c.value) == Normalize(raw)
    ensures c.warned ==> c.value == Gh
  {
    var v := Normalize(raw);
    if v == [] || v == ToolName(Gh) then Choice(Gh, false)
    else if v == ToolName(Az) then Choice(Az, false)
    else Choice(Gh, true)
  }

  /** `input(...).strip().lower() or "conventional"`, then the fallback to
      `conventional` with a warning for an unknown convention. */
  function DecodeConvention(raw: string): (c: Choice<Convention>)
    ensures Normalize(raw) == [] ==> c == Choice(Conventional, false)
    ensures Normalize(raw) != [] ==>
      (c.warned <==> forall k: Convention :: ConventionName(k) != Normalize(raw))
    ensures !c.warned && Normalize(raw) != [] ==> ConventionName(c.value) == Normalize(raw)
    ensures c.warned ==> c.value == Conventional
  {
    var v := Normalize(raw);
    if v == [] || v == ConventionName(Conventional) then Choice(Conventional, false)
    else if v == ConventionName(TicketPrefix) then Choice(TicketPrefix, false)
    else Choice(Conventional, true)
  }

  /** `input(...).strip() or default`: a verbatim answer with a default. */
  function AnswerOr(raw: string, default: string): (r: string)
    requires |default| > 0
    ensures |r| > 0
    ensures r == default || (Trimmed(r) && r == Strip(raw))
    ensures Strip(raw) != [] ==> r == Strip(raw)
    ensures Strip(raw) == [] ==> r == default
  {
    var v := Strip(raw);
    if v == [] then default else v
  }

  /** `input(...).strip().lower() in ['y', 'yes']`: the install-commands
      question, where every other answer means no and nothing re-asks. */
  function DecodeYes(raw: string): (b: bool)
    ensures b <==> Normalize(raw) == "y" || Normalize(raw) == "yes"
  {
    var v := Normalize(raw);
    v == "y" || v == "yes"
  }

  /** The raw answers of an interactive run, in the order they are asked. */
  datatype Answers = Answers(folder: string, commands: string, tool: string,
                             convention: string, baseBranch: string)

  /** Interactive mode (no argument) or non-interactive mode with the
      folder name given on the command line. */
  datatype Mode = Interactive(answers: Answers) | NonInteractive(folderArg: string)

  datatype Settings = Settings(folderName: string, installCommands: bool, tool: PrTool,
                               convention: Convention, baseBranch: string)

  const DefaultFolder: string := ".ai"
  const DefaultBaseBranch: string := "main"

  /** The values `main` collects before the preview: every answer is
      decoded, with fallbacks; the non-interactive run never asks and
      uses the fixed defaults. */
  function ResolveSettings(mode: Mode): (s: Settings)
    ensures mode.NonInteractive? ==>
      s == Settings(mode.folderArg, false, Gh, Conventional, DefaultBaseBranch)
    ensures mode.Interactive? ==> |s.folderName| > 0 && |s.baseBranch| > 0
    ensures mode.Interactive? ==> s.folderName == AnswerOr(mode.answers.folder, DefaultFolder)
    ensures mode.Interactive? ==> s.installCommands == DecodeYes(mode.answers.commands)
    ensures mode.Interactive? ==> s.baseBranch == AnswerOr(mode.answers.baseBranch, DefaultBaseBranch)
    ensures mode.Interactive? ==> s.tool == DecodePrTool(mode.answers.tool).value
    ensures mode.Interactive? ==> s.convention == DecodeConvention(mode.answers.convention).value
  {
    match mode
    case NonInteractive(arg) => Settings(arg, false, Gh, Conventional, DefaultBaseBranch)
    case Interactive(a) =>
      Settings(AnswerOr(a.folder, DefaultFolder), DecodeYes(a.commands),
               DecodePrTool(a.tool).value, DecodeConvention(a.convention).value,
               AnswerOr(a.baseBranch, DefaultBaseBranch))
  }

  /** Lower-case letters and dashes: the alphabet of every option name. */
  predicate LowerCaseWord(s: string) {
    forall k :: 0 <= k < |s| ==> 'a' <= s[k] <= 'z' || s[k] == '-'
  }

  lemma WordTrimmed(s: string)
    requires LowerCaseWord(s)
    ensures Trimmed(s)
  {
  }

  lemma WordLower(s: string)
    requires LowerCaseWord(s)
    ensures Lower(s) == s
  {
    forall k | 0 <= k < |s|
      ensures Lower(s)[k] == s[k]
    {
    }
  }

  /** An option name is its own normalised form. */
  lemma WordNormalized(s: string)
    requires LowerCaseWord(s)
    ensures Normalize(s) == s
  {
    WordTrimmed(s);
    WordLower(s);
    StripTrimmed(s);
  }

  lemma NamesAreLowerCase(s: string)
    requires s == ToolName(Gh) || s == ToolName(Az)
          || s == ConventionName(Conventional) || s == ConventionName(TicketPrefix)
    ensures LowerCaseWord(s)
  {
  }

  /** Typing a tool's own name selects it without a warning. */
  lemma ToolRoundTrip(t: PrTool)
    ensures DecodePrTool(ToolName(t)) == Choice(t, false)
  {
    NamesAreLowerCase(ToolName(t));
    WordNormalized(ToolName(t));
  }

  /** Typing a convention's own name selects it without a warning. */
  lemma ConventionRoundTrip(c: Convention)
    ensures DecodeConvention(ConventionName(c)) == Choice(c, false)
  {
    NamesAreLowerCase(ConventionName(c));
    WordNormalized(ConventionName(c));
  }

  /** The answers that spell a setting out: the folder name, `y` or `n`,
      the tool's and the convention's names, and the base branch. */
  function Spell(s: Settings): Answers {
    Answers(s.folderName, if s.installCommands then "y" else "n",
            ToolName(s.tool), ConventionName(s.convention), s.baseBranch)
  }

  lemma ShortAnswers(y: string, n: string)
    requires y == "y" && n == "n"
    ensures DecodeYes(y) && !DecodeYes(n)
  {
    WordNormalized(y);
    WordNormalized(n);
  }

  /** Typing back what an interactive run resolved reproduces it: every
      setting an interactive run can produce (its folder name and base
      branch are nonempty and carry no surrounding whitespace) is the
      resolution of its own spelling. */
  lemma ResolveRoundTrip(s: Settings)
    requires |s.folderName| > 0 && Trimmed(s.folderName)
    requires |s.baseBranch| > 0 && Trimmed(s.baseBranch)
    ensures ResolveSettings(Interactive(Spell(s))) == s
  {
    StripTrimmed(s.folderName);
    StripTrimmed(s.baseBranch);
    ToolRoundTrip(s.tool);
    ConventionRoundTrip(s.convention);
    ShortAnswers("y", "n");
  }

  // Decoding depends only on the normalised answer: surrounding
  // whitespace and letter case never change the choice.

  lemma ToolIgnoresCaseAndSpace(raw: string)
    ensures DecodePrTool(raw) == DecodePrTool(Normalize(raw))
  {
    NormalizeIdempotent(raw);
  }

  lemma ConventionIgnoresCaseAndSpace(raw: string)
    ensures DecodeConvention(raw) == DecodeConvention(Normalize(raw))
  {
    NormalizeIdempotent(raw);
  }

  lemma YesIgnoresCaseAndSpace(raw: string)
    ensures DecodeYes(raw) == DecodeYes(Normalize(raw))
  {
    NormalizeIdempotent(raw);
  }
}
