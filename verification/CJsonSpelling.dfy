/** JSON texts as they are written, and what they mean, independently of the parser: sections 2 to 7 of
    RFC 8259, with what the parser takes beyond them. */
module CJsonSpelling {
  import opened CString
  import opened CJsonText
  import Utf8

  // ---------- strings ----------

  // A byte that stands for itself, a backslash and another character, a \u escape of a code point or
  // a surrogate pair of them, and a \u escape that denotes nothing.
  datatype Unit = Plain(c: char) | Escaped(e: char) | Code(point: nat, spelling: string) | Void(unit: nat, hex: string)

  const LOWER := "0123456789abcdef"
  const UPPER := "0123456789ABCDEF"

  // Four hexadecimal digits, each of either case.
  predicate IsHex4(h: string, n: nat) {
    |h| == 4 && n < 0x10000 && IsHex1(h[0], n / 0x1000) && IsHex1(h[1], n / 0x100 % 16) &&
    IsHex1(h[2], n / 16 % 16) && IsHex1(h[3], n % 16)
  }

  predicate IsHex1(c: char, d: nat)
    requires d < 16
  {
    c == LOWER[d] || c == UPPER[d]
  }

  predicate IsUnit16(s: string, n: nat) {
    |s| == 6 && s[0] == '\\' && s[1] == 'u' && IsHex4(s[2..], n)
  }

  predicate IsCode(s: string, c: nat) {
    Utf8.IsScalar(c) && c != 0 &&
    if c < 0x10000 then IsUnit16(s, c)
    else |s| == 12 && IsUnit16(s[..6], Utf8.HighSurrogate(c)) && IsUnit16(s[6..], Utf8.LowSurrogate(c))
  }

  predicate IsUnitSpelling(u: Unit) {
    match u
    case Plain(c) => c != '\"' && c != '\\'
    case Escaped(e) => e != 'u'
    case Code(c, s) => IsCode(s, c)
    case Void(n, h) => IsHex4(h, n) && (n == 0 || 0xDC00 <= n <= 0xDFFF)
  }

  predicate AreUnits(us: seq<Unit>) {
    forall i :: 0 <= i < |us| ==> IsUnitSpelling(us[i])
  }

  function SpellUnit(u: Unit): string {
    match u
    case Plain(c) => [c]
    case Escaped(e) => ['\\', e]
    case Code(_, s) => s
    case Void(_, h) => "\\u" + h
  }

  // What follows a backslash stands for: section 7 of RFC 8259; any other character for itself.
  function EscapeValue(e: char): char {
    if e == '\"' then '\"'
    else if e == '\\' then '\\'
    else if e == '/' then '/'
    else if e == 'b' then 0x08 as char
    else if e == 'f' then 0x0C as char
    else if e == 'n' then 0x0A as char
    else if e == 'r' then 0x0D as char
    else if e == 't' then 0x09 as char
    else e
  }

  function UnitValue(u: Unit): string
    requires IsUnitSpelling(u)
  {
    match u
    case Plain(c) => [c]
    case Escaped(e) => [EscapeValue(e)]
    case Code(c, _) => Utf8.Chars(Utf8.Encode(c))
    case Void(_, _) => ""
  }

  function SpellUnits(us: seq<Unit>): string {
    if us == [] then "" else SpellUnit(us[0]) + SpellUnits(us[1..])
  }

  function UnitsValue(us: seq<Unit>): string
    requires AreUnits(us)
  {
    if us == [] then "" else UnitValue(us[0]) + UnitsValue(us[1..])
  }

  function SpellString(us: seq<Unit>): string {
    "\"" + SpellUnits(us) + "\""
  }

  // ---------- numbers ----------

  // An exponent: its letter, its sign if there is one, and its digits.
  datatype Power = NoPower | Power(letter: char, sign: string, digits: seq<nat>)

  // A minus, a zero, the digits after it, those behind the point, and the exponent.
  datatype Numeral = Numeral(minus: bool, zero: bool, whole: seq<nat>, fraction: seq<nat>, power: Power)

  predicate AreDigits(ds: seq<nat>) {
    forall i :: 0 <= i < |ds| ==> ds[i] < 10
  }

  predicate IsPower(e: Power) {
    e.Power? ==> (e.letter == 'e' || e.letter == 'E') && e.sign in {"", "+", "-"} && AreDigits(e.digits)
  }

  // All numbers of section 6 of RFC 8259, and also a zero before other digits, a minus alone, and an
  // exponent without digits.
  predicate IsNumeral(n: Numeral) {
    && AreDigits(n.whole) && AreDigits(n.fraction) && IsPower(n.power)
    && (n.whole != [] ==> n.whole[0] != 0) && (n.minus || n.zero || n.whole != [])
  }

  function SpellDigits(ds: seq<nat>): (s: string)
    requires AreDigits(ds)
    ensures |s| == |ds|
  {
    seq(|ds|, i requires 0 <= i < |ds| => LOWER[ds[i]])
  }

  function SpellPower(e: Power): string
    requires IsPower(e)
  {
    if e.NoPower? then "" else [e.letter] + (e.sign + SpellDigits(e.digits))
  }

  function SpellFraction(ds: seq<nat>): string
    requires AreDigits(ds)
  {
    if ds == [] then "" else "." + SpellDigits(ds)
  }

  function SpellNumeral(n: Numeral): string
    requires IsNumeral(n)
  {
    (if n.minus then "-" else "") + SpellUnsigned(n)
  }

  // A number without its sign.
  function SpellUnsigned(n: Numeral): string
    requires IsNumeral(n)
  {
    (if n.zero then "0" else "") + SpellDigits(n.whole) + (SpellFraction(n.fraction) + SpellPower(n.power))
  }

  // The number that digits are in base ten.
  function Decimal(ds: seq<nat>): nat {
    if ds == [] then 0 else 10 * Decimal(ds[..|ds| - 1]) + ds[|ds| - 1]
  }

  function TenTo(k: nat): nat {
    if k == 0 then 1 else 10 * TenTo(k - 1)
  }

  // How many places the digits of the whole and of the fraction, written together, are shifted.
  function Places(n: Numeral): int {
    var e := if n.power.NoPower? then 0 else Decimal(n.power.digits);
    (if n.power.Power? && n.power.sign == "-" then -e else e) - |n.fraction|
  }

  // The real that is the number.
  predicate IsValue(n: Numeral, value: real) {
    IsShifted(Signed(n), Places(n), value)
  }

  function Signed(n: Numeral): int {
    var digits: int := Decimal(n.whole + n.fraction);
    if n.minus then -digits else digits
  }

  // The value is x times a power of ten, or x is the value times one.
  predicate IsShifted(x: int, places: int, value: real) {
    if places >= 0 then value == (x * TenTo(places)) as real else value * TenTo(-places) as real == x as real
  }

  // ---------- trees ----------

  // A value, and the white space inside its brackets.
  datatype Form =
    | Word(name: string)
    | Num(numeral: Numeral, value: real)
    | Str(units: seq<Unit>)
    | Arr(space: string, entries: seq<Entry>)
    | Obj(space: string, fields: seq<Field>)

  // An element with the space before and after it.
  datatype Entry = Entry(before: string, form: Form, after: string)

  // A member: the space before its name, after it, behind the colon, and after the value.
  datatype Field = Field(before: string, name: seq<Unit>, mid: string, gap: string, form: Form, after: string)

  // Section 2 of RFC 8259.
  predicate IsWs(c: char) {
    c == 0x20 as char || c == 0x09 as char || c == 0x0A as char || c == 0x0D as char
  }

  predicate AreWs(s: string) {
    forall i :: 0 <= i < |s| ==> IsWs(s[i])
  }

  predicate IsForm(f: Form) {
    match f
    case Word(name) => name == "null" || name == "true" || name == "false"
    case Num(n, value) => IsNumeral(n) && IsValue(n, value)
    case Str(us) => AreUnits(us)
    case Arr(_, entries) => AreEntries(entries)
    case Obj(_, fields) => AreFields(fields)
  }

  predicate AreEntries(entries: seq<Entry>) {
    entries == [] || (IsForm(entries[0].form) && AreEntries(entries[1..]))
  }

  predicate AreFields(fields: seq<Field>) {
    fields == [] || (AreUnits(fields[0].name) && IsForm(fields[0].form) && AreFields(fields[1..]))
  }

  // Only white space is around the tokens.
  predicate Spaced(f: Form) {
    match f
    case Arr(space, entries) => AreWs(space) && SpacedEntries(entries)
    case Obj(space, fields) => AreWs(space) && SpacedFields(fields)
    case _ => true
  }

  predicate SpacedEntries(entries: seq<Entry>) {
    entries == [] ||
    (AreWs(entries[0].before) && Spaced(entries[0].form) && AreWs(entries[0].after) && SpacedEntries(entries[1..]))
  }

  predicate SpacedFields(fields: seq<Field>) {
    fields == [] ||
    (AreWs(fields[0].before) && AreWs(fields[0].mid) && AreWs(fields[0].gap) && Spaced(fields[0].form) &&
     AreWs(fields[0].after) && SpacedFields(fields[1..]))
  }

  function Spell(f: Form): string
    requires IsForm(f)
  {
    match f
    case Word(name) => name
    case Num(n, _) => SpellNumeral(n)
    case Str(us) => SpellString(us)
    case Arr(space, entries) => "[" + (if entries == [] then space + "]" else SpellEntries(entries))
    case Obj(space, fields) => "{" + (if fields == [] then space + "}" else SpellFields(fields))
  }

  // Elements with commas between them, and the closing bracket.
  function SpellEntries(entries: seq<Entry>): string
    requires entries != [] && AreEntries(entries)
  {
    entries[0].before + (Spell(entries[0].form) + (entries[0].after +
    if |entries| == 1 then "]" else "," + SpellEntries(entries[1..])))
  }

  // Members with commas between them, and the closing brace.
  function SpellFields(fields: seq<Field>): string
    requires fields != [] && AreFields(fields)
  {
    fields[0].before + (SpellString(fields[0].name) + (fields[0].mid + (":" + (fields[0].gap +
    (Spell(fields[0].form) + (fields[0].after +
    if |fields| == 1 then "}" else "," + SpellFields(fields[1..])))))))
  }

  function Meaning(f: Form): Json
    requires IsForm(f)
  {
    match f
    case Word(name) => if name == "null" then Null else if name == "true" then True else False
    case Num(_, value) => Number(value)
    case Str(us) => Text(UnitsValue(us))
    case Arr(_, entries) => Array(EntryMeanings(entries))
    case Obj(_, fields) => Object(FieldMeanings(fields))
  }

  function EntryMeanings(entries: seq<Entry>): seq<Json>
    requires AreEntries(entries)
  {
    if entries == [] then [] else [Meaning(entries[0].form)] + EntryMeanings(entries[1..])
  }

  function FieldMeanings(fields: seq<Field>): seq<Member>
    requires AreFields(fields)
  {
    if fields == [] then []
    else [Member(UnitsValue(fields[0].name), Meaning(fields[0].form))] + FieldMeanings(fields[1..])
  }
}
