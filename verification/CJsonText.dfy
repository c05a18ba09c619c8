/** cJSON as functions on text: what the printers write and what the parser reads. */
module CJsonText {
  import opened CString
  import Utf8

  datatype Json =
    | Null
    | False
    | True
    | Number(value: real)
    | Text(text: string)
    | Array(items: seq<Json>)
    | Object(members: seq<Member>)

  datatype Member = Member(name: string, value: Json)

  // What the parser makes of a text. `Overrun`: it would leave the text or a buffer, after which
  // nothing is known of it.
  datatype Parsed<T> = Failed | Overrun | Read(value: T, rest: string)

  const INT_MAX := 0x7fff_ffff
  const INT_MIN := -0x8000_0000

  // More decimal places than a double has, before or after the point.
  const PLACES: int := 400

  // Numbers of the magnitudes that a double has.
  predicate Finite(d: real) {
    d == 0.0 || PowTen(-PLACES) <= Abs(d) < PowTen(PLACES)
  }

  // The trees the printers print: finite numbers and NUL-free strings.
  ghost predicate Printable(v: Json) {
    match v
    case Number(d) => Finite(d)
    case Text(s) => NulFree(s)
    case Array(items) => PrintableItems(items)
    case Object(members) => PrintableMembers(members)
    case _ => true
  }

  ghost predicate PrintableItems(items: seq<Json>) {
    items == [] || (Printable(items[0]) && PrintableItems(items[1..]))
  }

  ghost predicate PrintableMembers(members: seq<Member>) {
    members == [] || (NulFree(members[0].name) && Printable(members[0].value) && PrintableMembers(members[1..]))
  }

  // ---------- printing ----------

  function DigitChar(d: nat): char
    requires d < 10
  {
    '0' + d as char
  }

  // sprintf "%d" of a non-negative number
  function Digits(n: nat): (s: string)
    ensures s != "" && forall c <- s :: IsDigit(c)
  {
    if n < 10 then [DigitChar(n)] else Digits(n / 10) + [DigitChar(n % 10)]
  }

  // sprintf "%d"
  function IntText(n: int): string {
    if n < 0 then "-" + Digits(-n) else Digits(n)
  }

  const WHOLE_LIMIT := 1000000000000000000000000000000000000000000000000000000000000.0

  // DBL_EPSILON
  const EPSILON := 1.0 / 4503599627370496.0

  function Abs(d: real): real {
    if d < 0.0 then -d else d
  }

  // The integer part, as a conversion to int takes it.
  function Truncate(d: real): int {
    if d >= 0.0 then d.Floor else -((-d).Floor)
  }

  // The nearest integer, the even one of two.
  function Rounded(x: real): nat
    requires x >= 0.0
  {
    var f := x.Floor;
    if x - f as real < 0.5 || (x - f as real == 0.5 && f % 2 == 0) then f else f + 1
  }

  function SignText(d: real): string {
    if d < 0.0 then "-" else ""
  }

  // The last k decimal digits.
  function LastDigits(n: nat, k: nat): (s: string)
    ensures |s| == k && forall i :: 0 <= i < k ==> IsDigit(s[i])
  {
    if k == 0 then "" else LastDigits(n / 10, k - 1) + [DigitChar(n % 10)]
  }

  // A number of millionths.
  function Millionths(m: nat): string {
    Digits(m / 1000000) + ("." + LastDigits(m % 1000000, 6))
  }

  // sprintf "%f": the nearest number of millionths
  function FixedText(d: real): string {
    SignText(d) + Millionths(FixedUnits(d))
  }

  function FixedUnits(d: real): nat {
    Rounded(Abs(d) * 1000000.0)
  }

  // The decimal point is moved until seven digits are before it.
  function Shift(x: real, e: int, places: nat): (r: (real, int))
    requires x >= 0.0
    ensures r.0 >= 0.0
    decreases places
  {
    if places == 0 then (x, e)
    else if x >= 10000000.0 then Shift(x / 10.0, e + 1, places - 1)
    else if x < 1000000.0 then Shift(x * 10.0, e - 1, places - 1)
    else (x, e)
  }

  // sprintf "%e": the nearest number with seven digits
  function ScientificText(d: real): string {
    var (m, e) := ScientificUnits(d);
    SignText(d) + Millionths(m) + ExponentText(e)
  }

  // The seven digits and the exponent of the first one.
  function ScientificUnits(d: real): (nat, int) {
    var (y, e) := Shift(Abs(d), 6, PLACES + 10);
    if Rounded(y) == 10000000 then (1000000, e + 1) else (Rounded(y), e)
  }

  function ExponentText(e: int): string {
    "e" + ((if e < 0 then "-" else "+") + TwoDigits(if e < 0 then -e else e))
  }

  function TwoDigits(n: nat): string {
    if n < 10 then "0" + Digits(n) else Digits(n)
  }

  // How print_number writes a number.
  datatype Style = Zero | Int | Whole | Scientific | Fixed

  function StyleOf(d: real): Style {
    if d == 0.0 then Zero
    else if Abs(Truncate(d) as real - d) <= EPSILON && INT_MIN as real <= d <= INT_MAX as real then Int
    else if Abs(d.Floor as real - d) <= EPSILON && Abs(d) < WHOLE_LIMIT then Whole
    else if Abs(d) < 0.000001 || Abs(d) > 1000000000.0 then Scientific
    else Fixed
  }

  function NumberText(d: real): string {
    match StyleOf(d)
    case Zero => "0"
    case Int => IntText(Truncate(d))
    case _ => FloatText(d)
  }

  // sprintf "%.0f", "%e" or "%f"
  function FloatText(d: real): string {
    if Abs(d.Floor as real - d) <= EPSILON && Abs(d) < WHOLE_LIMIT then IntText(d.Floor)
    else if Abs(d) < 0.000001 || Abs(d) > 1000000000.0 then ScientificText(d)
    else FixedText(d)
  }

  // The number that this text denotes.
  function ShownNumber(d: real): real {
    var sign := if d < 0.0 then -1.0 else 1.0;
    match StyleOf(d)
    case Zero => 0.0
    case Int => Truncate(d) as real
    case Whole => d.Floor as real
    case Scientific => var (m, e) := ScientificUnits(d); Scaled(sign, m as real, e - 6)
    case Fixed => Scaled(sign, FixedUnits(d) as real, -6)
  }

  // The tree with each number as printed.
  function Shown(v: Json): Json {
    match v
    case Number(d) => Number(ShownNumber(d))
    case Array(items) => Array(ShownItems(items))
    case Object(members) => Object(ShownMembers(members))
    case _ => v
  }

  function ShownItems(items: seq<Json>): (r: seq<Json>)
    ensures |r| == |items|
  {
    if items == [] then [] else [Shown(items[0])] + ShownItems(items[1..])
  }

  function ShownMembers(members: seq<Member>): (r: seq<Member>)
    ensures |r| == |members|
  {
    if members == [] then [] else [Member(members[0].name, Shown(members[0].value))] + ShownMembers(members[1..])
  }

  function HexDigit(d: nat): (c: char)
    requires d < 16
    ensures HexValue(c) == d
  {
    if d < 10 then '0' + d as char else 'a' + (d - 10) as char
  }

  // sprintf "%04x"
  function Hex4(n: nat): string
    requires n < 0x10000
  {
    [HexDigit(n / 0x1000), HexDigit(n / 0x100 % 16), HexDigit(n / 16 % 16), HexDigit(n % 16)]
  }

  const BACKSPACE := 8 as char
  const FORM_FEED := 12 as char

  predicate NeedsEscape(c: char) {
    c < ' ' || c == '\"' || c == '\\'
  }

  function EscapeChar(c: char): string {
    if !NeedsEscape(c) then [c]
    else if c == '\\' || c == '\"' then ['\\', c]
    else if c == BACKSPACE then "\\b"
    else if c == FORM_FEED then "\\f"
    else if c == '\n' then "\\n"
    else if c == '\r' then "\\r"
    else if c == '\t' then "\\t"
    else "\\u" + Hex4(c as nat)
  }

  function Escape(s: string): string {
    if s == "" then "" else EscapeChar(s[0]) + Escape(s[1..])
  }

  function StringText(s: string): string {
    "\"" + Escape(s) + "\""
  }

  function Tabs(n: int): string {
    if n <= 0 then "" else seq(n, _ => '\t')
  }

  function Print(v: Json, depth: nat, fmt: bool): string {
    match v
    case Null => "null"
    case False => "false"
    case True => "true"
    case Number(d) => NumberText(d)
    case Text(s) => StringText(s)
    case Array(items) => if items == [] then "[]" else "[" + PrintItems(items, depth + 1, fmt)
    case Object(members) =>
      if members == [] then (if fmt then "{\n" + Tabs(depth - 1) + "}" else "{}")
      else (if fmt then "{\n" else "{") + PrintMembers(members, depth + 1, fmt)
  }

  // The elements, their separators and the closing bracket.
  function PrintItems(items: seq<Json>, depth: nat, fmt: bool): string {
    if items == [] then "]"
    else Print(items[0], depth, fmt) + ItemSeparator(|items| > 1, fmt) + PrintItems(items[1..], depth, fmt)
  }

  function ItemSeparator(more: bool, fmt: bool): string {
    if more then (if fmt then ", " else ",") else ""
  }

  // The members, their separators and the closing brace.
  function PrintMembers(members: seq<Member>, depth: nat, fmt: bool): string {
    if members == [] then (if fmt then Tabs(depth - 1) else "") + "}"
    else
      MemberHead(members[0].name, depth, fmt) + Print(members[0].value, depth, fmt)
      + MemberTail(|members| > 1, fmt) + PrintMembers(members[1..], depth, fmt)
  }

  function MemberHead(name: string, depth: nat, fmt: bool): string {
    (if fmt then Tabs(depth) else "") + StringText(name) + (if fmt then ":\t" else ":")
  }

  function MemberTail(more: bool, fmt: bool): string {
    (if more then "," else "") + (if fmt then "\n" else "")
  }

  // ---------- parsing ----------

  function Skip(p: string): (r: string)
    ensures |r| <= |p|
  {
    if p != "" && '\0' < p[0] <= ' ' then Skip(p[1..]) else p
  }

  function HexValue(c: char): int {
    if '0' <= c <= '9' then c as int - '0' as int
    else if 'A' <= c <= 'F' then 10 + c as int - 'A' as int
    else if 'a' <= c <= 'f' then 10 + c as int - 'a' as int
    else -1
  }

  predicate IsHex(c: char) {
    HexValue(c) >= 0
  }

  // parse_hex4: 0 unless all four are hexadecimal digits
  function ParseHex4(p: string): (h: nat)
    ensures h < 0x10000
  {
    if IsHex(Peek(p)) && IsHex(Peek(p, 1)) && IsHex(Peek(p, 2)) && IsHex(Peek(p, 3)) then
      HexValue(Peek(p)) * 0x1000 + HexValue(Peek(p, 1)) * 0x100 + HexValue(Peek(p, 2)) * 0x10 + HexValue(Peek(p, 3))
    else 0
  }

  // The bytes of the transcoder's switch for two to four byte sequences, on 32-bit words: the
  // low bytes are filled from the last one back, shifting the code unit right by six each time.
  function MultiByte(uc: nat): seq<bv8>
    requires uc < 0x110000
  {
    var w := uc as bv32;
    if uc < 0x800 then [HeadByte(w >> 6, 0xC0), TailByte(w)]
    else if uc < 0x10000 then [HeadByte(w >> 12, 0xE0), TailByte(w >> 6), TailByte(w)]
    else [HeadByte(w >> 18, 0xF0), TailByte(w >> 12), TailByte(w >> 6), TailByte(w)]
  }

  function TailByte(uc: bv32): bv8 {
    (((uc | 0x80) & 0xBF) & 0xFF) as bv8
  }

  function HeadByte(uc: bv32, mark: bv32): bv8 {
    ((uc | mark) & 0xFF) as bv8
  }

  function JsonBytes(uc: nat): string
    requires uc < 0x110000
  {
    if uc < 0x80 then [uc as char] else Utf8.Chars(MultiByte(uc))
  }

  // The case 'u' of parse_string; `p` is at the 'u'. Yields the bytes written and where `ptr`
  // is when the case breaks, on the last digit read.
  function UnescapeUnicode(p: string): (r: (string, string))
    ensures |r.1| <= |p|
  {
    var uc := ParseHex4(Advance(p, 1));
    var ptr := Advance(p, 4);
    if 0xDC00 <= uc <= 0xDFFF || uc == 0 then ("", ptr)
    else if 0xD800 <= uc <= 0xDBFF then
      if Peek(ptr, 1) != '\\' || Peek(ptr, 2) != 'u' then ("", ptr)
      else
        var uc2 := ParseHex4(Advance(ptr, 3));
        var ptr2 := Advance(ptr, 6);
        if uc2 < 0xDC00 || uc2 > 0xDFFF then ("", ptr2)
        else (JsonBytes(Utf8.Combine(uc, uc2)), ptr2)
    else (JsonBytes(uc), ptr)
  }

  // What the escape at `p`, just after the backslash, writes, and where `ptr` is at the break.
  function UnescapeOne(p: string): (r: (string, string))
    ensures |r.1| <= |p|
  {
    match Peek(p)
    case 'b' => ([BACKSPACE], p)
    case 'f' => ([FORM_FEED], p)
    case 'n' => ("\n", p)
    case 'r' => ("\r", p)
    case 't' => ("\t", p)
    case 'u' => UnescapeUnicode(p)
    case c => ([c], p)
  }

  // parse_string's second pass: the bytes written and where it stops.
  function Unescape(p: string): (r: (string, string))
    ensures |r.1| <= |p|
    decreases |p|
  {
    if p == "" || p[0] == '\"' then ("", p)
    else if p[0] != '\\' then
      var (out, end) := Unescape(p[1..]);
      ([p[0]] + out, end)
    else
      var (bytes, at) := UnescapeOne(p[1..]);
      var (out, end) := Unescape(Advance(at, 1));
      (bytes + out, end)
  }

  // parse_string's first pass: the size it counts and where it stops.
  function Measure(p: string): (r: (nat, string))
    ensures |r.1| <= |p|
    decreases |p|
  {
    if p == "" || p[0] == '\"' then (0, p)
    else
      var (len, end) := Measure(Advance(p, if p[0] == '\\' then 2 else 1));
      (len + 1, end)
  }

  // The first pass skips a byte after every backslash, the terminator too if it is next.
  predicate MeasureInside(p: string)
    decreases |p|
  {
    p == "" || p[0] == '\"' ||
    if p[0] == '\\' then |p| >= 2 && MeasureInside(p[2..]) else MeasureInside(p[1..])
  }

  // The escape at `q`, just after the backslash, and the four or ten bytes it steps over at a 'u'
  // end before the terminator.
  predicate EscapeInside(q: string) {
    q != "" && (q[0] == 'u' ==> |q| >= if ReadsPair(q) then 11 else 5)
  }

  predicate ReadsPair(q: string) {
    0xD800 <= ParseHex4(Advance(q, 1)) <= 0xDBFF && Peek(Advance(q, 4), 1) == '\\' && Peek(Advance(q, 4), 2) == 'u'
  }

  predicate UnescapeInside(p: string)
    decreases |p|
  {
    p == "" || p[0] == '\"' ||
    if p[0] != '\\' then UnescapeInside(p[1..])
    else EscapeInside(p[1..]) && UnescapeInside(Advance(UnescapeOne(p[1..]).1, 1))
  }

  // Both passes stay in the text, and the second one in the buffer the first one counted.
  predicate Inside(p: string) {
    MeasureInside(p) && UnescapeInside(p) && |Unescape(p).0| <= Measure(p).0
  }

  function ParseString(p: string): (r: Parsed<string>)
    ensures r.Read? ==> |r.rest| < |p|
  {
    if Peek(p) != '\"' then Failed
    else if !Inside(p[1..]) then Overrun
    else
      var (out, end) := Unescape(p[1..]);
      Read(out, if Peek(end) == '\"' then end[1..] else end)
  }

  // Reads digits into `n`; `count` is how many.
  function ParseDigits(p: string, n: real): (r: (real, nat, string))
    ensures |r.2| <= |p|
    ensures p != "" && IsDigit(p[0]) ==> |r.2| < |p|
  {
    if p != "" && IsDigit(p[0]) then
      var (m, count, rest) := ParseDigits(p[1..], n * 10.0 + (p[0] as int - '0' as int) as real);
      (m, count + 1, rest)
    else (n, 0, p)
  }

  function PowTen(k: int): real
    decreases if k < 0 then -k else k
  {
    if k == 0 then 1.0 else if k > 0 then 10.0 * PowTen(k - 1) else PowTen(k + 1) / 10.0
  }

  // +/- number.fraction * 10^+/- exponent
  function Scaled(sign: real, n: real, k: int): real {
    sign * n * PowTen(k)
  }

  // Reads digits of the exponent into `n`.
  function ParseInt(p: string, n: int): (r: (int, string))
    ensures |r.1| <= |p|
  {
    if p != "" && IsDigit(p[0]) then ParseInt(p[1..], n * 10 + (p[0] as int - '0' as int)) else (n, p)
  }

  function ParseExponent(p: string): (r: (int, string))
    ensures |r.1| <= |p|
  {
    if Peek(p) == 'e' || Peek(p) == 'E' then
      var q := Advance(p, 1);
      var signed := if Peek(q) == '+' || Peek(q) == '-' then Advance(q, 1) else q;
      var (subscale, rest) := ParseInt(signed, 0);
      (if Peek(q) == '-' then -subscale else subscale, rest)
    else (0, p)
  }

  // The digits before the point; one leading zero is skipped.
  function ParseWhole(p: string): (r: (real, string))
    ensures |r.1| <= |p|
    ensures p != "" && IsDigit(p[0]) ==> |r.1| < |p|
  {
    var q := if Peek(p) == '0' then Advance(p, 1) else p;
    if '1' <= Peek(q) <= '9' then
      var (n, _, rest) := ParseDigits(q, 0.0);
      (n, rest)
    else (0.0, q)
  }

  // The digits after the point, continuing `n`, and how many they are.
  function ParseFraction(p: string, n: real): (r: (real, nat, string))
    ensures |r.2| <= |p|
  {
    if Peek(p) == '.' && IsDigit(Peek(p, 1)) then ParseDigits(Advance(p, 1), n) else (n, 0, p)
  }

  function ParseNumber(p: string): (r: (real, string))
    ensures |r.1| <= |p|
    ensures p != "" && (p[0] == '-' || IsDigit(p[0])) ==> |r.1| < |p|
  {
    var sign := if Peek(p) == '-' then -1.0 else 1.0;
    var (whole, p1) := ParseWhole(if Peek(p) == '-' then Advance(p, 1) else p);
    var (n, scale, p2) := ParseFraction(p1, whole);
    var (exponent, rest) := ParseExponent(p2);
    (Scaled(sign, n, exponent - scale), rest)
  }

  function ParseValue(p: string): (r: Parsed<Json>)
    ensures r.Read? ==> |r.rest| < |p|
    decreases |p|, 1
  {
    if "null" <= p then Read(Null, p[4..])
    else if "false" <= p then Read(False, p[5..])
    else if "true" <= p then Read(True, p[4..])
    else if Peek(p) == '\"' then
      match ParseString(p)
      case Failed => Failed
      case Overrun => Overrun
      case Read(s, rest) => Read(Text(s), rest)
    else if Peek(p) == '-' || IsDigit(Peek(p)) then
      var (d, rest) := ParseNumber(p);
      Read(Number(d), rest)
    else if Peek(p) == '[' then ParseArray(p)
    else if Peek(p) == '{' then ParseObject(p)
    else Failed
  }

  function ParseArray(p: string): (r: Parsed<Json>)
    requires Peek(p) == '['
    ensures r.Read? ==> |r.rest| < |p|
    decreases |p|, 0
  {
    var q := Skip(p[1..]);
    if Peek(q) == ']' then Read(Array([]), q[1..])
    else
      match ParseItems(q)
      case Failed => Failed
      case Overrun => Overrun
      case Read(items, rest) => Read(Array(items), rest)
  }

  // One or more elements and the closing bracket.
  function ParseItems(p: string): (r: Parsed<seq<Json>>)
    ensures r.Read? ==> |r.rest| < |p| && r.value != []
    decreases |p|, 2
  {
    match ParseValue(Skip(p))
    case Failed => Failed
    case Overrun => Overrun
    case Read(v, rest) =>
      var q := Skip(rest);
      if Peek(q) == ',' then
        match ParseItems(q[1..])
        case Failed => Failed
      case Overrun => Overrun
        case Read(items, end) => Read([v] + items, end)
      else if Peek(q) == ']' then Read([v], q[1..])
      else Failed
  }

  function ParseObject(p: string): (r: Parsed<Json>)
    requires Peek(p) == '{'
    ensures r.Read? ==> |r.rest| < |p|
    decreases |p|, 0
  {
    var q := Skip(p[1..]);
    if Peek(q) == '}' then Read(Object([]), q[1..])
    else
      match ParseMembers(q)
      case Failed => Failed
      case Overrun => Overrun
      case Read(members, rest) => Read(Object(members), rest)
  }

  function ParseMember(p: string): (r: Parsed<Member>)
    ensures r.Read? ==> |r.rest| < |p|
    decreases |p|, 2
  {
    match ParseString(Skip(p))
    case Failed => Failed
    case Overrun => Overrun
    case Read(name, rest) =>
      var q := Skip(rest);
      if Peek(q) != ':' then Failed
      else
        match ParseValue(Skip(q[1..]))
        case Failed => Failed
      case Overrun => Overrun
        case Read(v, end) => Read(Member(name, v), end)
  }

  // One or more members and the closing brace.
  function ParseMembers(p: string): (r: Parsed<seq<Member>>)
    ensures r.Read? ==> |r.rest| < |p| && r.value != []
    decreases |p|, 3
  {
    match ParseMember(p)
    case Failed => Failed
    case Overrun => Overrun
    case Read(m, rest) =>
      var q := Skip(rest);
      if Peek(q) == ',' then
        match ParseMembers(q[1..])
        case Failed => Failed
      case Overrun => Overrun
        case Read(members, end) => Read([m] + members, end)
      else if Peek(q) == '}' then Read([m], q[1..])
      else Failed
  }

  // cJSON_ParseWithOpts
  function Parse(text: string, requireEnd: bool): Parsed<Json> {
    match ParseValue(Skip(text))
    case Failed => Failed
    case Overrun => Overrun
    case Read(v, rest) =>
      if requireEnd && Skip(rest) != "" then Failed
      else Read(v, if requireEnd then Skip(rest) else rest)
  }
}
