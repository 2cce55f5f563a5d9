/**
 * The replacement template of Python's `re.sub` as install.py builds it in
 * `update_pr_config`: `f'\\1{value}'`, i.e. a backslash, the digit 1 and
 * then the value.  The template is parsed, not copied: backslash escapes
 * and group references in it are interpreted.  This module models that
 * parse for a pattern with one group, following the template grammar of
 * CPython 3.12 (`re._parser.parse_template`).
 */
module Template {
  import opened Results

  /** One element of a parsed template: a literal character or a reference
      to a group of the match (0 is the whole match). */
  datatype Piece = Lit(c: char) | Group(index: nat)

  /** Every way the template compiler rejects a template; each raises an
      exception out of `re.sub`. */
  datatype TemplateError = BadEscape | BadGroupReference | OctalOutOfRange

  predicate IsDigit(c: char) { '0' <= c <= '9' }
  predicate IsOctal(c: char) { '0' <= c <= '7' }
  predicate IsAsciiLetter(c: char) { 'a' <= c <= 'z' || 'A' <= c <= 'Z' }

  function DigitValue(c: char): (n: nat)
    requires IsDigit(c)
    ensures n < 10
  {
    c as int - '0' as int
  }

  /** The value of a run of ASCII digits. */
  function DecimalValue(s: string): nat
    requires forall k :: 0 <= k < |s| ==> IsDigit(s[k])
  {
    if |s| == 0 then 0 else DecimalValue(s[..|s| - 1]) * 10 + DigitValue(s[|s| - 1])
  }

  predicate AllDigits(s: string) {
    |s| > 0 && forall k :: 0 <= k < |s| ==> IsDigit(s[k])
  }

  /** The one-character escapes `\a \b \f \n \r \t \v \\`. */
  function Escape(c: char): Option<char> {
    if c == 'a' then Some('\U{7}')
    else if c == 'b' then Some('\U{8}')
    else if c == 'f' then Some('\U{c}')
    else if c == 'n' then Some('\n')
    else if c == 'r' then Some('\r')
    else if c == 't' then Some('\t')
    else if c == 'v' then Some('\U{b}')
    else if c == '\\' then Some('\\')
    else None
  }

  /** The number (0, 1 or 2) of octal digits that start `s`, at most two. */
  function OctalPrefix(s: string): (n: nat)
    ensures n <= 2 && n <= |s|
    ensures forall k :: 0 <= k < n ==> IsOctal(s[k])
  {
    if |s| > 0 && IsOctal(s[0]) then
      if |s| > 1 && IsOctal(s[1]) then 2 else 1
    else 0
  }

  /** The first index at or after `from` holding `c`. */
  function Find(s: string, c: char, from: nat): (r: Option<nat>)
    requires from <= |s|
    ensures r.Some? ==> from <= r.value < |s| && s[r.value] == c
    ensures r.Some? ==> forall k :: from <= k < r.value ==> s[k] != c
    ensures r.None? ==> forall k :: from <= k < |s| ==> s[k] != c
    decreases |s| - from
  {
    if from == |s| then None
    else if s[from] == c then Some(from)
    else Find(s, c, from + 1)
  }

  function Prepend(ps: seq<Piece>, rest: Result<seq<Piece>, TemplateError>): Result<seq<Piece>, TemplateError> {
    match rest
    case Ok(tail) => Ok(ps + tail)
    case Err(e) => Err(e)
  }

  /** Every group reference a successful parse produces names an existing
      group. */
  predicate GroupsWithin(ps: seq<Piece>, groups: nat) {
    forall k :: 0 <= k < |ps| && ps[k].Group? ==> ps[k].index <= groups
  }

  /** Parses a template for a pattern with `groups` capturing groups. */
  function Parse(t: string, groups: nat): (r: Result<seq<Piece>, TemplateError>)
    ensures r.Ok? ==> GroupsWithin(r.value, groups)
    decreases |t|
  {
    if |t| == 0 then Ok([])
    else if t[0] != '\\' then Prepend([Lit(t[0])], Parse(t[1..], groups))
    else if |t| == 1 then Err(BadEscape)
    else
      var c := t[1];
      if c == 'g' then
        // \g<name>: only a decimal group number can name a group here,
        // since the installer's patterns have no named groups
        if |t| < 3 || t[2] != '<' then Err(BadEscape)
        else match Find(t, '>', 3)
          case None => Err(BadEscape)
          case Some(j) =>
            var name := t[3..j];
            if !AllDigits(name) then Err(BadGroupReference)
            else if DecimalValue(name) > groups then Err(BadGroupReference)
            else Prepend([Group(DecimalValue(name))], Parse(t[j + 1..], groups))
      else if c == '0' then
        // \0 with up to two more octal digits: a character code below
        // 0o100, so the source's masking with 0xff changes nothing
        var n := OctalPrefix(t[2..]);
        var code := if n == 0 then 0
                    else if n == 1 then DigitValue(t[2])
                    else 8 * DigitValue(t[2]) + DigitValue(t[3]);
        Prepend([Lit(code as char)], Parse(t[2 + n..], groups))
      else if IsDigit(c) then
        if |t| > 2 && IsDigit(t[2]) then
          if IsOctal(c) && IsOctal(t[2]) && |t| > 3 && IsOctal(t[3]) then
            // three octal digits: a character code
            var code := 64 * DigitValue(c) + 8 * DigitValue(t[2]) + DigitValue(t[3]);
            if code > 255 then Err(OctalOutOfRange)
            else Prepend([Lit(code as char)], Parse(t[4..], groups))
          else
            // two decimal digits: a group number
            var g := 10 * DigitValue(c) + DigitValue(t[2]);
            if g > groups then Err(BadGroupReference)
            else Prepend([Group(g)], Parse(t[3..], groups))
        else
          var g := DigitValue(c);
          if g > groups then Err(BadGroupReference)
          else Prepend([Group(g)], Parse(t[2..], groups))
      else if Escape(c).Some? then Prepend([Lit(Escape(c).value)], Parse(t[2..], groups))
      else if IsAsciiLetter(c) then Err(BadEscape)
      else Prepend([Lit('\\'), Lit(c)], Parse(t[2..], groups))
  }

  /** The template `\1` followed by `value`, as install.py writes it. */
  function ValueTemplate(value: string): string {
    "\\1" + value
  }

  /** The literal pieces of a string. */
  function Lits(s: string): (ps: seq<Piece>)
    ensures |ps| == |s|
    ensures forall k :: 0 <= k < |s| ==> ps[k] == Lit(s[k])
  {
    if |s| == 0 then [] else [Lit(s[0])] + Lits(s[1..])
  }

  /** The text a parsed template produces for one match. */
  function Expand(ps: seq<Piece>, whole: string, group1: string): string {
    if |ps| == 0 then []
    else
      var head := match ps[0]
        case Lit(c) => [c]
        case Group(i) => if i == 0 then whole else group1;
      head + Expand(ps[1..], whole, group1)
  }

  lemma {:induction false} ExpandLits(s: string, whole: string, group1: string)
    ensures Expand(Lits(s), whole, group1) == s
    decreases |s|
  {
    if |s| > 0 {
      assert Lits(s)[1..] == Lits(s[1..]);
      ExpandLits(s[1..], whole, group1);
    }
  }

  /** Text without a backslash is copied verbatim. */
  lemma {:induction false} PlainTextIsLiteral(s: string, groups: nat)
    requires forall k :: 0 <= k < |s| ==> s[k] != '\\'
    ensures Parse(s, groups) == Ok(Lits(s))
    decreases |s|
  {
    if |s| > 0 {
      PlainTextIsLiteral(s[1..], groups);
    }
  }

  /** A value the template carries through unchanged: no backslash, and
      not starting with a digit that would extend the `\1`. */
  predicate SafeValue(value: string) {
    && (forall k :: 0 <= k < |value| ==> value[k] != '\\')
    && (|value| == 0 || !IsDigit(value[0]))
  }

  /** For a safe value the template means what the installer intends:
      group 1 (the key and the whitespace after it) followed by the value. */
  lemma SafeValueTemplate(value: string)
    requires SafeValue(value)
    ensures Parse(ValueTemplate(value), 1) == Ok([Group(1)] + Lits(value))
    ensures forall whole, group1 :: Expand([Group(1)] + Lits(value), whole, group1) == group1 + value
  {
    var t := ValueTemplate(value);
    assert t[0] == '\\' && t[1] == '1' && t[2..] == value;
    PlainTextIsLiteral(value, 1);
    forall whole, group1
      ensures Expand([Group(1)] + Lits(value), whole, group1) == group1 + value
    {
      assert ([Group(1)] + Lits(value))[1..] == Lits(value);
      ExpandLits(value, whole, group1);
    }
  }

  /** A value starting with two octal digits completes a three-digit octal
      escape with the `1`: `\1` + `2024` is the character `\120` (`P`)
      followed by `24`, and group 1 is never inserted. */
  lemma OctalValueSwallowsGroup(value: string)
    requires |value| >= 2 && IsOctal(value[0]) && IsOctal(value[1])
    requires forall k :: 2 <= k < |value| ==> value[k] != '\\'
    ensures Parse(ValueTemplate(value), 1)
            == Ok([Lit((64 + 8 * DigitValue(value[0]) + DigitValue(value[1])) as char)] + Lits(value[2..]))
  {
    var t := ValueTemplate(value);
    assert t[1] == '1' && t[2] == value[0] && t[3] == value[1] && t[4..] == value[2..];
    PlainTextIsLiteral(value[2..], 1);
  }

  /** A value starting with a digit that does not complete an octal escape
      turns `\1` into a two-digit group number, which does not exist: the
      template is rejected. */
  lemma DigitValueRejected(value: string)
    requires |value| >= 1 && IsDigit(value[0])
    requires !IsOctal(value[0]) || |value| == 1 || !IsOctal(value[1])
    ensures Parse(ValueTemplate(value), 1) == Err(BadGroupReference)
  {
    var t := ValueTemplate(value);
    assert t[1] == '1' && t[2] == value[0];
    assert |t| > 3 ==> t[3] == value[1];
  }
}
