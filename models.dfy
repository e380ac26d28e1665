/** The records of the to-do service and the validation rules of its
    request payloads (src/models.rs), with the "simple" text form in which a
    record's id is serialised. */
module Models {

  /** Rust's Option, with `unwrap_or`. */
  datatype Option<T> = None | Some(value: T) {
    function UnwrapOr(default: T): T {
      match this
      case Some(v) => v
      case None => default
    }
  }

  /** 16^k. */
  function Pow16(k: nat): (p: nat)
    ensures p >= 1
  {
    if k == 0 then 1 else 16 * Pow16(k - 1)
  }

  /** A UUID is a 128-bit value: 32 hex digits. */
  const UuidBound: nat := Pow16(32)
  type Uuid = n: nat | n < UuidBound

  /** A UTC instant. The model only copies and compares instants. */
  type Timestamp = int

  /** A stored to-do item. */
  datatype Todo = Todo(
    id: Uuid,
    title: string,
    description: Option<string>,
    completed: bool,
    createdAt: Timestamp,
    updatedAt: Timestamp)

  /** The body of a create request. */
  datatype CreateTodo = CreateTodo(title: string, description: Option<string>)

  /** The body of an update request; every field may be absent. */
  datatype UpdateTodo = UpdateTodo(
    title: Option<string>,
    description: Option<string>,
    completed: Option<bool>)

  // ---------------------------------------------------------------------
  // Validation, as derived by `#[derive(Validate)]`: each annotated field
  // carries a list of rules; an absent optional field is not checked; a
  // field without annotation is never checked.
  // ---------------------------------------------------------------------

  /** A `length(min = ..., message = ...)` rule. */
  datatype Rule = MinLength(min: nat, message: string)

  /** One failed rule, reported under its field name and rule code. */
  datatype FieldError = FieldError(field: string, code: string, message: string)

  type ValidationErrors = seq<FieldError>

  /** What `validate()` returns: `Ok(())` or the collected errors. */
  datatype Validation = Pass | Fail(errors: ValidationErrors)

  /** The rules on `title`, the same in both payloads. */
  const TitleRules: seq<Rule> := [MinLength(1, "Title cannot be empty")]

  /** Length is counted in characters (Unicode scalar values). */
  predicate Satisfies(value: string, rule: Rule) {
    |value| >= rule.min
  }

  /** The errors that the rules of one field report for a present value. */
  function CheckRules(field: string, rules: seq<Rule>, value: string): (errs: ValidationErrors)
    ensures errs == [] <==> forall i :: 0 <= i < |rules| ==> Satisfies(value, rules[i])
    ensures forall i :: 0 <= i < |errs| ==> errs[i].field == field && errs[i].code == "length"
    ensures |errs| <= |rules|
  {
    if rules == [] then []
    else
      var head := if Satisfies(value, rules[0]) then []
                  else [FieldError(field, "length", rules[0].message)];
      head + CheckRules(field, rules[1..], value)
  }

  function Collect(errs: ValidationErrors): Validation {
    if errs == [] then Pass else Fail(errs)
  }

  /** `CreateTodo::validate`: only `title` is annotated. */
  function ValidateCreate(p: CreateTodo): (r: Validation)
    ensures r.Pass? <==> |p.title| >= 1
    ensures r.Fail? ==> r.errors == [FieldError("title", "length", "Title cannot be empty")]
  {
    Collect(CheckRules("title", TitleRules, p.title))
  }

  /** `UpdateTodo::validate`: `title` is checked only when present. */
  function ValidateUpdate(p: UpdateTodo): (r: Validation)
    ensures r.Pass? <==> (p.title.None? || |p.title.value| >= 1)
    ensures r.Fail? ==> p.title.Some? && r.errors == [FieldError("title", "length", "Title cannot be empty")]
  {
    match p.title
    case None => Pass
    case Some(t) => Collect(CheckRules("title", TitleRules, t))
  }

  /** Neither the description nor the completed flag can make a payload
      invalid, and a title passes whatever its characters are, whitespace
      included: only its length matters. */
  lemma OnlyTitleLengthMatters(t1: string, t2: string, d1: Option<string>, d2: Option<string>,
                               c1: Option<bool>, c2: Option<bool>)
    requires |t1| == |t2|
    ensures ValidateCreate(CreateTodo(t1, d1)) == ValidateCreate(CreateTodo(t2, d2))
    ensures ValidateUpdate(UpdateTodo(Some(t1), d1, c1)) == ValidateUpdate(UpdateTodo(Some(t2), d2, c2))
    ensures ValidateUpdate(UpdateTodo(None, d1, c1)) == ValidateUpdate(UpdateTodo(None, d2, c2)) == Pass
  {
  }

  /** A title made only of spaces is accepted. */
  lemma WhitespaceTitleIsValid(n: nat, d: Option<string>)
    requires n >= 1
    ensures ValidateCreate(CreateTodo(seq(n, _ => ' '), d)) == Pass
  {
  }

  /** An update payload with every field absent is accepted. */
  lemma EmptyUpdateIsValid()
    ensures ValidateUpdate(UpdateTodo(None, None, None)) == Pass
  {
  }

  // ---------------------------------------------------------------------
  // The "simple" form of a UUID (`uuid::serde::simple`): 32 lower-case hex
  // digits, most significant first, no hyphens.
  // ---------------------------------------------------------------------

  predicate IsLowerHex(c: char) {
    ('0' <= c <= '9') || ('a' <= c <= 'f')
  }

  /** A hex digit in either case. */
  predicate IsHexDigit(c: char) {
    IsLowerHex(c) || ('A' <= c <= 'F')
  }

  predicate AllLowerHex(s: string) {
    forall i :: 0 <= i < |s| ==> IsLowerHex(s[i])
  }

  predicate AllHexDigits(s: string) {
    forall i :: 0 <= i < |s| ==> IsHexDigit(s[i])
  }

  function HexDigit(d: nat): (c: char)
    requires d < 16
    ensures IsLowerHex(c)
  {
    if d < 10 then ('0' as int + d) as char else ('a' as int + d - 10) as char
  }

  /** The value of a hex digit; 'A'..'F' count as 'a'..'f'. */
  function DigitValue(c: char): (d: nat)
    requires IsHexDigit(c)
    ensures d < 16
  {
    if c <= '9' then c as int - '0' as int
    else if c <= 'F' then c as int - 'A' as int + 10
    else c as int - 'a' as int + 10
  }

  /** The lower-case spelling of a hex digit. */
  function LowerDigit(c: char): (l: char)
    requires IsHexDigit(c)
    ensures IsLowerHex(l) && DigitValue(l) == DigitValue(c)
  {
    if 'A' <= c <= 'F' then (c as int - 'A' as int + 'a' as int) as char else c
  }

  function LowerDigits(s: string): (l: string)
    requires AllHexDigits(s)
    ensures |l| == |s| && AllLowerHex(l)
  {
    if s == [] then [] else LowerDigits(s[..|s| - 1]) + [LowerDigit(s[|s| - 1])]
  }

  lemma DigitRoundTrip(d: nat)
    requires d < 16
    ensures DigitValue(HexDigit(d)) == d
  {
  }

  lemma CharRoundTrip(c: char)
    requires IsLowerHex(c)
    ensures HexDigit(DigitValue(c)) == c
  {
  }

  /** The lowest `width` hex digits of `n`, most significant first. */
  function HexEncode(n: nat, width: nat): (s: string)
    ensures |s| == width
    ensures AllLowerHex(s)
  {
    if width == 0 then [] else HexEncode(n / 16, width - 1) + [HexDigit(n % 16)]
  }

  /** The value of a string of hex digits. */
  function HexDecode(s: string): (n: nat)
    requires AllHexDigits(s)
    ensures n < Pow16(|s|)
  {
    if s == [] then 0 else 16 * HexDecode(s[..|s| - 1]) + DigitValue(s[|s| - 1])
  }

  lemma {:induction false} DecodeEncode(n: nat, width: nat)
    requires n < Pow16(width)
    ensures HexDecode(HexEncode(n, width)) == n
  {
    if width > 0 {
      var s := HexEncode(n, width);
      var front := HexEncode(n / 16, width - 1);
      assert s[..|s| - 1] == front;
      DigitRoundTrip(n % 16);
      DecodeEncode(n / 16, width - 1);
    }
  }

  lemma {:induction false} EncodeDecode(s: string)
    requires AllLowerHex(s)
    ensures HexEncode(HexDecode(s), |s|) == s
  {
    if s != [] {
      var front, last := s[..|s| - 1], s[|s| - 1];
      var n := HexDecode(s);
      assert n / 16 == HexDecode(front) && n % 16 == DigitValue(last);
      EncodeDecode(front);
      CharRoundTrip(last);
      assert s == front + [last];
    }
  }

  /** The case of the digits does not change the value they spell. */
  lemma {:induction false} DecodeIgnoresCase(s: string)
    requires AllHexDigits(s)
    ensures HexDecode(LowerDigits(s)) == HexDecode(s)
  {
    if s != [] {
      var l := LowerDigits(s);
      assert l[..|l| - 1] == LowerDigits(s[..|s| - 1]);
      DecodeIgnoresCase(s[..|s| - 1]);
    }
  }

  /** How a record's id appears in its JSON form. */
  function SimpleForm(id: Uuid): (s: string)
    ensures |s| == 32 && AllLowerHex(s)
    ensures '-' !in s
  {
    HexEncode(id, 32)
  }

  /** Reads back a 32-digit id, taking hex digits in either case; anything
      else is refused. */
  function ParseSimple(s: string): (r: Option<Uuid>)
    ensures r.Some? <==> |s| == 32 && AllHexDigits(s)
  {
    if |s| == 32 && AllHexDigits(s) then Some(HexDecode(s)) else None
  }

  /** Upper-case digits read back as the id their lower-case spelling
      names, so every 32-digit string, in either case, names the id whose
      simple form is its lower-case spelling. */
  lemma ParseSimpleIgnoresCase(s: string)
    requires |s| == 32 && AllHexDigits(s)
    ensures ParseSimple(s) == ParseSimple(LowerDigits(s))
    ensures SimpleForm(ParseSimple(s).value) == LowerDigits(s)
  {
    DecodeIgnoresCase(s);
    EncodeDecode(LowerDigits(s));
  }

  /** Serialising an id and reading it back gives the id. */
  lemma SimpleFormRoundTrip(id: Uuid)
    ensures ParseSimple(SimpleForm(id)) == Some(id)
  {
    DecodeEncode(id, 32);
  }

  /** Every string of 32 lower-case hex digits is the simple form of exactly
      one id, so the form loses nothing and admits nothing extra. */
  lemma SimpleFormCoversAllDigitStrings(s: string)
    requires |s| == 32 && AllLowerHex(s)
    ensures ParseSimple(s).Some? && SimpleForm(ParseSimple(s).value) == s
  {
    EncodeDecode(s);
  }
}
