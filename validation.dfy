/**
 * The Laravel validation rules the label and todo controllers apply, as
 * predicates on the raw request fields (`None` when the key is absent).
 * Each field passes when every one of its rules passes.
 */
module Validation {
  import opened Records
  import opened Text

  const MaxTextLength: nat := 255
  const MaxColorLength: nat := 7

  function Field(body: JsonObject, key: string): (v: Option<Json>)
    ensures v.Some? <==> key in body
    ensures v.Some? ==> v.value == body[key]
  {
    if key in body then Some(body[key]) else None
  }

  /** `required`: present, not null, and not a string that PHP's trim() empties. */
  predicate Required(v: Option<Json>) {
    v.Some? && v.value != JNull && !(v.value.JStr? && PhpTrimsToEmpty(v.value.s))
  }

  /** `string` */
  predicate IsString(v: Json) {
    v.JStr?
  }

  /**
   * `max:n` on a string counts characters. For other values the `string` rule
   * beside it has already failed, so they are not constrained here.
   */
  predicate MaxLength(v: Json, n: nat) {
    v.JStr? ==> |v.s| <= n
  }

  /**
   * `regex:/^#[0-9A-Fa-f]{6}$/` under PCRE without the D modifier: `$` also
   * matches before a final newline. A number's decimal text never starts with '#'.
   */
  predicate MatchesColorPattern(v: Json) {
    && v.JStr?
    && (|v.s| == 7 || (|v.s| == 8 && v.s[7] == '\n'))
    && v.s[0] == '#'
    && forall i :: 1 <= i < 7 ==> IsHexDigit(v.s[i])
  }

  /** `boolean`: true, false, 0, 1, "0" or "1". */
  predicate IsBooleanLike(v: Json) {
    v.JBool? || v == JNum(0) || v == JNum(1) || v == JStr("0") || v == JStr("1")
  }

  function BooleanValue(v: Json): (b: bool)
    requires IsBooleanLike(v)
    ensures b <==> v == JBool(true) || v == JNum(1) || v == JStr("1")
  {
    match v
    case JBool(b) => b
    case _ => v == JNum(1) || v == JStr("1")
  }

  /** `'required', 'string', 'max:255'` (label name, todo title). */
  predicate TextValid(v: Option<Json>) {
    Required(v) && IsString(v.value) && MaxLength(v.value, MaxTextLength)
  }

  /** `'required', 'string', 'max:7', 'regex:/^#[0-9A-Fa-f]{6}$/'` (label colour). */
  predicate ColorValid(v: Option<Json>) {
    Required(v) && IsString(v.value) && MaxLength(v.value, MaxColorLength) && MatchesColorPattern(v.value)
  }

  /** `'nullable', 'string'` (todo description): absent, null, or any string. */
  predicate DescriptionValid(v: Option<Json>) {
    v.None? || v.value == JNull || IsString(v.value)
  }

  /** `sometimes` in front of other rules: they apply only when the key is present. */
  predicate Sometimes(v: Option<Json>, rulesHold: bool) {
    v.None? || rulesHold
  }

  /** `#` followed by exactly six hexadecimal digits. */
  predicate IsHexColor(s: string) {
    |s| == 7 && s[0] == '#' && forall i :: 1 <= i < 7 ==> IsHexDigit(s[i])
  }

  /** The four colour rules together accept exactly the strings `#` + six hex digits. */
  lemma ColorValidExactly(v: Option<Json>)
    ensures ColorValid(v) <==> v.Some? && v.value.JStr? && IsHexColor(v.value.s)
  {
    if v.Some? && v.value.JStr? && IsHexColor(v.value.s) {
      assert !IsPhpTrimChar(v.value.s[0]);
    }
  }

  /** The pattern alone lets a trailing newline through; it is `max:7` that refuses it. */
  lemma PatternAloneAdmitsTrailingNewline()
    ensures MatchesColorPattern(JStr("#aabbcc\n"))
    ensures !ColorValid(Some(JStr("#aabbcc\n")))
  {
  }

  /** A name or title passes when it is a string of at most 255 characters not made only of PHP white space. */
  lemma TextValidExactly(v: Option<Json>)
    ensures TextValid(v) <==>
      v.Some? && v.value.JStr? && |v.value.s| <= 255 && exists i :: 0 <= i < |v.value.s| && !IsPhpTrimChar(v.value.s[i])
  {
  }

  /** Names of the label fields that fail in `store`. */
  function LabelStoreErrors(body: JsonObject): (errors: set<string>)
    ensures errors <= {"name", "color"}
    ensures "name" in errors <==> !TextValid(Field(body, "name"))
    ensures "color" in errors <==> !ColorValid(Field(body, "color"))
  {
    (if TextValid(Field(body, "name")) then {} else {"name"})
    + (if ColorValid(Field(body, "color")) then {} else {"color"})
  }

  /** Names of the label fields that fail in `update`: each rule set is behind `sometimes`. */
  function LabelUpdateErrors(body: JsonObject): (errors: set<string>)
    ensures errors <= {"name", "color"}
    ensures "name" in errors <==> "name" in body && !TextValid(Field(body, "name"))
    ensures "color" in errors <==> "color" in body && !ColorValid(Field(body, "color"))
  {
    var name := Field(body, "name");
    var color := Field(body, "color");
    (if Sometimes(name, TextValid(name)) then {} else {"name"})
    + (if Sometimes(color, ColorValid(color)) then {} else {"color"})
  }

  /** Names of the todo fields that fail in `store`. */
  function TodoStoreErrors(body: JsonObject): (errors: set<string>)
    ensures errors <= {"title", "description"}
    ensures "title" in errors <==> !TextValid(Field(body, "title"))
    ensures "description" in errors <==> "description" in body && body["description"] != JNull && !body["description"].JStr?
  {
    (if TextValid(Field(body, "title")) then {} else {"title"})
    + (if DescriptionValid(Field(body, "description")) then {} else {"description"})
  }

  /** Names of the todo fields that fail in `update`. */
  function TodoUpdateErrors(body: JsonObject): (errors: set<string>)
    ensures errors <= {"title", "description", "completed"}
    ensures "title" in errors <==> "title" in body && !TextValid(Field(body, "title"))
    ensures "description" in errors <==> !DescriptionValid(Field(body, "description"))
    ensures "completed" in errors <==> "completed" in body && !IsBooleanLike(body["completed"])
  {
    var title := Field(body, "title");
    var completed := Field(body, "completed");
    (if Sometimes(title, TextValid(title)) then {} else {"title"})
    + (if DescriptionValid(Field(body, "description")) then {} else {"description"})
    + (if Sometimes(completed, completed.Some? && IsBooleanLike(completed.value)) then {} else {"completed"})
  }
}
