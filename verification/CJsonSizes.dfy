/** Facts about printed texts that both printers rely on: they hold no NUL, and the sizes the
    printers compute cover them. */
module CJsonSizes {
  import opened CString
  import opened CJsonText
  import opened CJsonNumbers
  import opened CJsonPrecision

  lemma {:induction false} EscapeNulFree(s: string)
    requires NulFree(s)
    ensures NulFree(Escape(s))
  {
    if s != "" { EscapeNulFree(s[1..]); }
  }

  lemma StringTextNulFree(s: string)
    requires NulFree(s)
    ensures NulFree(StringText(s))
  {
    EscapeNulFree(s);
  }

  lemma NumberTextNulFree(d: real)
    ensures NulFree(NumberText(d))
  {
    var text := NumberText(d);
    NumberTextChars(d);
    assert forall i :: 0 <= i < |text| ==> text[i] != '\0';
  }

  lemma {:induction false} PrintNulFree(v: Json, depth: nat, fmt: bool)
    requires Printable(v)
    ensures NulFree(Print(v, depth, fmt))
    decreases v
  {
    match v
    case Number(d) => NumberTextNulFree(d);
    case Text(s) => StringTextNulFree(s);
    case Array(items) => PrintItemsNulFree(items, depth + 1, fmt);
    case Object(members) => PrintMembersNulFree(members, depth + 1, fmt);
    case _ =>
  }

  lemma {:induction false} PrintItemsNulFree(items: seq<Json>, depth: nat, fmt: bool)
    requires PrintableItems(items)
    ensures NulFree(PrintItems(items, depth, fmt))
    decreases items
  {
    if items != [] {
      PrintNulFree(items[0], depth, fmt);
      PrintItemsNulFree(items[1..], depth, fmt);
    }
  }

  lemma {:induction false} PrintMembersNulFree(members: seq<Member>, depth: nat, fmt: bool)
    requires PrintableMembers(members)
    ensures NulFree(PrintMembers(members, depth, fmt))
    decreases members
  {
    if members != [] {
      StringTextNulFree(members[0].name);
      PrintNulFree(members[0].value, depth, fmt);
      PrintMembersNulFree(members[1..], depth, fmt);
    }
  }

  // ---------- the texts of numbers fit what is asked for them ----------

  lemma {:induction false} DigitsShort(n: nat, k: nat, bound: nat)
    requires n < bound && bound == Power(k) && 0 < k
    ensures |Digits(n)| <= k
    decreases k
  {
    if n >= 10 { DigitsShort(n / 10, k - 1, Power(k - 1)); }
  }

  lemma IntTextShort(n: int)
    requires INT_MIN <= n <= INT_MAX
    ensures |IntText(n)| <= 11
  {
    Powers();
    DigitsShort(if n < 0 then -n else n, 10, Power(10));
  }

  lemma Powers()
    ensures Power(2) == 100 && Power(3) == 1000 && Power(10) == 10000000000
    ensures Power(60) == WHOLE_LIMIT.Floor && Power(61) == 10 * WHOLE_LIMIT.Floor
  {
    SixIsMillion();
    PowerAdd(6, 4);
    PowerAdd(10, 10);
    PowerAdd(20, 20);
    PowerAdd(40, 20);
  }

  lemma {:induction false} PowerAdd(j: nat, k: nat)
    ensures Power(j + k) == Power(j) * Power(k)
  {
    if j > 0 { PowerAdd(j - 1, k); }
  }

  // A whole number below the limit.
  lemma WholeShort(d: real)
    requires Abs(d) < WHOLE_LIMIT
    ensures |IntText(d.Floor)| <= 62
  {
    Powers();
    DigitsShort(if d.Floor < 0 then -d.Floor else d.Floor, 61, Power(61));
  }

  lemma FixedShort(d: real)
    requires Abs(d) <= 1000000000.0
    ensures |FixedText(d)| <= 18
  {
    RoundedNear(Abs(d) * 1000000.0);
    Powers();
    DigitsShort(FixedUnits(d) / 1000000, 10, Power(10));
  }

  lemma ScientificShort(d: real)
    requires Finite(d) && d != 0.0
    ensures |ScientificText(d)| <= 15
  {
    var (m, e) := ScientificUnits(d);
    SevenDigits(d);
    RoundedNear(Shift(Abs(d), 6, PLACES + 10).0);
    Powers();
    DigitsShort(m / 1000000, 2, Power(2));
    DigitsShort(if e < 0 then -e else e, 3, Power(3));
  }

  // print_number asks for 64 bytes where the number is not a 32-bit integer.
  lemma NumberTextShort(d: real)
    requires Finite(d)
    ensures |NumberText(d)| < 64 && (StyleOf(d).Int? ==> |NumberText(d)| < 21) && (StyleOf(d).Zero? ==> |NumberText(d)| < 2)
  {
    match StyleOf(d)
    case Zero =>
    case Int => IntShort(d);
    case Whole => WholeShort(d);
    case Scientific => ScientificShort(d);
    case Fixed => FixedShort(d);
  }

  lemma IntShort(d: real)
    requires StyleOf(d).Int?
    ensures |IntText(Truncate(d))| <= 11
  {
    IntTextShort(Truncate(d));
  }

  lemma {:induction false} PrintableItem(items: seq<Json>, k: nat)
    requires PrintableItems(items) && k < |items|
    ensures Printable(items[k])
  {
    if k > 0 { PrintableItem(items[1..], k - 1); }
  }

  lemma {:induction false} PrintableMember(members: seq<Member>, k: nat)
    requires PrintableMembers(members) && k < |members|
    ensures Printable(members[k].value) && NulFree(members[k].name)
  {
    if k > 0 { PrintableMember(members[1..], k - 1); }
  }

  // Printing from the k-th element on.
  lemma PrintItemsFrom(items: seq<Json>, k: nat, depth: nat, fmt: bool)
    requires k < |items|
    ensures PrintItems(items[k..], depth, fmt) ==
      Print(items[k], depth, fmt) + ItemSeparator(k + 1 < |items|, fmt) + PrintItems(items[k + 1..], depth, fmt)
  {
    assert items[k..][1..] == items[k + 1..];
  }

  lemma PrintMembersFrom(members: seq<Member>, k: nat, depth: nat, fmt: bool)
    requires k < |members|
    ensures PrintMembers(members[k..], depth, fmt) ==
      MemberHead(members[k].name, depth, fmt) + Print(members[k].value, depth, fmt)
      + MemberTail(k + 1 < |members|, fmt) + PrintMembers(members[k + 1..], depth, fmt)
  {
    assert members[k..][1..] == members[k + 1..];
  }
}
