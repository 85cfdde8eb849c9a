/** Reading back what a specification prints: any order of attributes, any layout. */
module JsonRoundTrip {
  import opened JsonModel

  /** A string comes with the spelling of each of its characters. */
  datatype Value = IntValue(n: int) | BoolValue(b: bool) | TextValue(s: string, spelling: seq<string>)

  /** White space before the name, around the colon, and after the value. */
  datatype Layout = Layout(before: string, afterName: string, beforeValue: string, afterValue: string)

  /** One attribute of a configuration: which entry of the table, its value, and how it is laid out. */
  datatype Item = Item(attr: nat, value: Value, layout: Layout)

  /** Blank, tab, line feed, vertical tab, form feed and carriage return: what isspace calls white space. */
  predicate IsWhite(c: char) {
    c as int in {32, 9, 10, 11, 12, 13}
  }

  predicate IsBlank(s: string) {
    forall c :: c in s ==> IsWhite(c)
  }

  lemma WhiteIff(c: char)
    ensures IsSpace(c) <==> IsWhite(c)
  {}

  predicate IsLayout(l: Layout) {
    IsBlank(l.before) && IsBlank(l.afterName) && IsBlank(l.beforeValue) && IsBlank(l.afterValue)
  }

  predicate IsName(name: string) {
    |name| <= JSON_ATTR_MAX - 1 && '"' !in name
  }

  /** A table whose names can be written and are all different. */
  predicate IsFlat(table: seq<Attr>) {
    && IsTable(table)
    && (forall k :: 0 <= k < |table| ==> IsName(table[k].name))
    && forall j, k :: 0 <= j < k < |table| ==> table[j].name != table[k].name
  }

  /** The digit with this value, in either case. */
  predicate IsDigitOf(c: char, d: nat) {
    d < 16 && (c == "0123456789abcdef"[d] || c == "0123456789ABCDEF"[d])
  }

  /** The number that four hexadecimal digits write. */
  predicate IsHexOf(digits: string, v: nat) {
    && |digits| == 4 && v < 0x1_0000
    && IsDigitOf(digits[0], v / 4096) && IsDigitOf(digits[1], v / 256 % 16)
    && IsDigitOf(digits[2], v / 16 % 16) && IsDigitOf(digits[3], v % 16)
  }

  /** The characters that may stand behind a reverse solidus, other than u, and what they mean. */
  predicate IsEscapeOf(e: char, c: char) {
    || (e == c && (c == '"' || c == '\\' || c == '/'))
    || (e == 'b' && c as int == 8) || (e == 't' && c as int == 9) || (e == 'n' && c as int == 10)
    || (e == 'f' && c as int == 12) || (e == 'r' && c as int == 13)
  }

  /**
   What ECMA-404 lets stand for a character in a string, section 9: the character
   itself, a two-character escape, or its number in four hexadecimal digits.
   */
  predicate IsSpelling(e: string, c: char) {
    || (e == [c] && c != '"' && c != '\\')
    || (|e| == 2 && e[0] == '\\' && IsEscapeOf(e[1], c))
    || (|e| == 6 && e[0] == '\\' && e[1] == 'u' && IsHexOf(e[2..], c as int))
  }

  /** The reader keeps the low byte of such a number. */
  predicate IsReadable(e: string, c: char) {
    IsSpelling(e, c) && (|e| == 6 ==> c as int < 256)
  }

  predicate AreReadable(spelling: seq<string>, s: string) {
    |spelling| == |s| && forall k :: 0 <= k < |s| ==> IsReadable(spelling[k], s[k])
  }

  /**
   The value has the type of its attribute; a truth value may be written as a number.
   Integers are 32 bits wide, strings hold no NUL and are spelled in any way that the
   reader decodes.
   */
  predicate HasType(kind: Kind, value: Value) {
    match kind
    case Integer => value.IntValue? && -0x8000_0000 <= value.n <= 0x7fff_ffff
    case Boolean => value.BoolValue? || (value.IntValue? && -0x8000_0000 <= value.n <= 0x7fff_ffff)
    case Text(_) => value.TextValue? && '\0' !in value.s && AreReadable(value.spelling, value.s)
  }

  predicate IsItem(table: seq<Attr>, item: Item) {
    item.attr < |table| && HasType(table[item.attr].kind, item.value) && IsLayout(item.layout)
  }

  predicate AreItems(table: seq<Attr>, items: seq<Item>) {
    forall m :: 0 <= m < |items| ==> IsItem(table, items[m])
  }

  // ---------- Printing ----------

  function Digits(n: nat): (s: string)
    ensures s != []
  {
    (if n < 10 then [] else Digits(n / 10)) + [('0' as int + n % 10) as char]
  }

  function Decimal(n: int): string {
    if n < 0 then ['-'] + Digits(-n) else Digits(n)
  }

  /** Every string has such a spelling. */
  lemma EveryStringIsSpelled(s: string) returns (spelling: seq<string>)
    ensures AreReadable(spelling, s)
  {
    spelling := seq(|s|, k requires 0 <= k < |s| =>
                      if s[k] == '"' || s[k] == '\\' then ['\\', s[k]] else [s[k]]);
  }

  function Body(spelling: seq<string>): string {
    if spelling == [] then [] else spelling[0] + Body(spelling[1..])
  }

  function PrintValue(value: Value): string {
    match value
    case IntValue(n) => Decimal(n)
    case BoolValue(b) => if b then "true" else "false"
    case TextValue(_, spelling) => ['"'] + (Body(spelling) + ['"'])
  }

  function PrintItem(table: seq<Attr>, item: Item): string
    requires item.attr < |table|
  {
    PrintName(item.layout, table[item.attr].name) + (PrintValue(item.value) + item.layout.afterValue)
  }

  /** Up to where the value begins. */
  function PrintName(l: Layout, name: string): string {
    l.before + (['"'] + (name + (['"'] + (l.afterName + ([':'] + l.beforeValue)))))
  }

  function PrintItems(table: seq<Attr>, items: seq<Item>): string
    requires AreItems(table, items)
  {
    if items == [] then "}"
    else PrintItem(table, items[0]) + (if |items| == 1 then [] else [',']) + PrintItems(table, items[1..])
  }

  /** An object after any white space. */
  function Print(table: seq<Attr>, lead: string, items: seq<Item>): string
    requires AreItems(table, items)
  {
    lead + ['{'] + PrintItems(table, items)
  }

  // ---------- What the targets should hold ----------

  function Kept(kind: Kind, field: Field, value: Value): (f: Field)
    requires IsTarget(kind, field) && HasType(kind, value) && (kind.Text? ==> kind.len >= 1)
    ensures IsTarget(kind, f)
  {
    match kind
    case Integer => Number(value.n)
    case Boolean => Truth(if value.BoolValue? then value.b else value.n != 0)
    case Text(len) => Memory(Fitted(value.s, len - 1) + field.chars[len - 1..])
  }

  function KeptAll(table: seq<Attr>, fields: seq<Field>, items: seq<Item>): (f: seq<Field>)
    requires IsTable(table) && AreTargets(table, fields) && AreItems(table, items)
    ensures AreTargets(table, f)
    decreases |items|
  {
    if items == [] then fields else
      var k := items[0].attr;
      KeptAll(table, fields[k := Kept(table[k].kind, fields[k], items[0].value)], items[1..])
  }

  // ---------- Numbers ----------

  lemma {:induction false} DecimalRunAppend(n: nat, more: string, acc: nat)
    requires acc == 0
    ensures DecimalRun(Digits(n) + more, acc) == DecimalRun(more, n)
  {
    var last := [('0' as int + n % 10) as char];
    if n < 10 {
      assert Digits(n) + more == last + more;
    } else {
      assert Digits(n) + more == Digits(n / 10) + (last + more);
      DecimalRunAppend(n / 10, last + more, 0);
      assert (last + more)[1..] == more;
    }
  }

  lemma AtoiDecimal(n: int)
    requires -0x8000_0000 <= n <= 0x7fff_ffff
    ensures Atoi(Decimal(n)) == n
  {
    var m: nat := if n < 0 then -n else n;
    DecimalRunAppend(m, [], 0);
    assert Digits(m) + [] == Digits(m);
    FirstDigit(m);
    assert n < 0 ==> Decimal(n)[1..] == Digits(m);
  }

  /** A decimal numeral by place value. */
  function PlaceValue(digits: string): nat {
    if digits == [] then 0 else
      var last := digits[|digits| - 1] as int - 48;
      10 * PlaceValue(digits[..|digits| - 1]) + if 0 <= last <= 9 then last else 0
  }

  function Signed(sign: string, digits: string): int {
    if sign == "-" then 0 - PlaceValue(digits) else PlaceValue(digits)
  }

  predicate AreDecimal(digits: string) {
    digits != [] && forall c :: c in digits ==> '0' <= c <= '9'
  }

  /** Nothing follows, or something that is no decimal digit. */
  predicate EndsDigits(rest: string) {
    rest == [] || !('0' <= rest[0] <= '9')
  }

  lemma {:induction false} DecimalRunJoin(a: string, b: string, acc: nat)
    requires forall c :: c in a ==> '0' <= c <= '9'
    ensures DecimalRun(a + b, acc) == DecimalRun(b, DecimalRun(a, acc))
    decreases |a|
  {
    if a == [] {
      assert a + b == b;
    } else {
      assert a[0] in a && forall c :: c in a[1..] ==> c in a;
      assert (a + b)[1..] == a[1..] + b;
      DecimalRunJoin(a[1..], b, 10 * acc + HexDigit(a[0]));
    }
  }

  lemma {:induction false} DecimalRunValue(digits: string)
    requires forall c :: c in digits ==> '0' <= c <= '9'
    ensures DecimalRun(digits, 0) == PlaceValue(digits)
  {
    if digits != [] {
      var init, last := digits[..|digits| - 1], digits[|digits| - 1];
      assert last in digits && forall c :: c in init ==> c in digits;
      assert digits == init + [last];
      DecimalRunJoin(init, [last], 0);
      DecimalRunValue(init);
    }
  }

  /**
   What an integer attribute makes of any number: sign, digits with or without leading
   zeros, and whatever follows them; beyond 32 bits the low 32 bits of the 64-bit value.
   */
  lemma NumberIsRead(sign: string, digits: string, rest: string)
    requires (sign == "" || sign == "+" || sign == "-") && AreDecimal(digits) && EndsDigits(rest)
    ensures var n := Signed(sign, digits);
            var r := Atoi(sign + digits + rest);
            && -0x8000_0000 <= r <= 0x7fff_ffff
            && (-0x8000_0000 <= n <= 0x7fff_ffff ==> r == n)
            && (-0x8000_0000_0000_0000 <= n <= 0x7fff_ffff_ffff_ffff ==> (r - n) % 0x1_0000_0000 == 0)
  {
    hide PlaceValue, HexDigit;
    DecimalRunJoin(digits, rest, 0);
    DecimalRunValue(digits);
    RunEnds(rest, PlaceValue(digits));
    assert digits[0] in digits;
    SignIsSkipped(sign, digits + rest);
    assert sign + (digits + rest) == sign + digits + rest;
    assert sign != "" ==> (sign + digits + rest)[0] == sign[0];
    LowBits(Signed(sign, digits));
  }

  lemma RunEnds(rest: string, acc: nat)
    requires EndsDigits(rest)
    ensures DecimalRun(rest, acc) == acc
  {}

  lemma LowBits(n: int)
    ensures -0x8000_0000 <= ToInt(n) <= 0x7fff_ffff
    ensures -0x8000_0000 <= n <= 0x7fff_ffff ==> ToInt(n) == n
    ensures -0x8000_0000_0000_0000 <= n <= 0x7fff_ffff_ffff_ffff ==> (ToInt(n) - n) % 0x1_0000_0000 == 0
  {}

  /** A hexadecimal digit. */
  predicate IsSomeDigit(c: char) {
    c in "0123456789abcdefABCDEF"
  }

  lemma SomeDigitIff(c: char)
    ensures IsSomeDigit(c) <==> IsHex(c)
  {
    if IsHex(c) {
      var all := "0123456789abcdefABCDEF";
      var k := if '0' <= c <= '9' then c as int - '0' as int
               else if 'a' <= c <= 'f' then c as int - 'a' as int + 10 else c as int - 'A' as int + 16;
      assert all[k] == c;
    }
  }

  /** The bases of strtol, by prefix, and their digits. */
  predicate IsNumeral(prefix: string, digits: string) {
    && digits != []
    && (|| (prefix == "" && digits[0] != '0' && forall c :: c in digits ==> '0' <= c <= '9')
        || (prefix == "0" && forall c :: c in digits ==> '0' <= c <= '7')
        || ((prefix == "0x" || prefix == "0X") && forall c :: c in digits ==> IsSomeDigit(c)))
  }

  lemma {:induction false} NonzeroDigits(digits: string, base: int)
    requires forall c :: c in digits ==> 0 <= HexDigit(c) < base
    ensures HasNonzeroDigit(digits, base) <==> exists c :: c in digits && c != '0'
  {
    if digits != [] {
      assert digits[0] in digits && forall c :: c in digits[1..] ==> c in digits;
      assert HexDigit(digits[0]) >= 0;
      NonzeroDigits(digits[1..], base);
      assert forall c :: c in digits ==> c == digits[0] || c in digits[1..];
    }
  }

  lemma NumeralDigits(prefix: string, digits: string)
    requires IsNumeral(prefix, digits)
    ensures var base := if prefix == "" then 10 else if prefix == "0" then 8 else 16;
            forall c :: c in digits ==> 0 <= HexDigit(c) < base
  {
    hide IsSomeDigit;
    forall c | c in digits
      ensures 0 <= HexDigit(c) < if prefix == "" then 10 else if prefix == "0" then 8 else 16
    {
      SomeDigitIff(c);
    }
  }

  /** A truth value written as a number, decimal, octal or hexadecimal, is false only if all its digits are 0. */
  lemma NumeralIsTrueIff(sign: string, prefix: string, digits: string)
    requires (sign == "" || sign == "+" || sign == "-") && IsNumeral(prefix, digits)
    ensures IsNonzero(sign + prefix + digits) <==> exists c :: c in digits && c != '0'
  {
    hide IsSomeDigit, HasNonzeroDigit, Unsigned;
    var t := prefix + digits;
    NumeralDigits(prefix, digits);
    assert digits[0] in digits;
    assert t[0] == if prefix == "" then digits[0] else '0';
    SignIsSkipped(sign, t);
    assert sign + t == sign + prefix + digits;
    if prefix == "" {
      assert t == digits;
      NonzeroDigits(digits, 10);
    } else if prefix == "0" {
      assert t == ['0'] + digits && t[1] == digits[0];
      forall c | c in t
        ensures 0 <= HexDigit(c) < 8
      {
        assert c == '0' || c in digits;
      }
      NonzeroDigits(t, 8);
      assert forall c :: c in digits ==> c in t;
    } else {
      assert t[1] == prefix[1] && t[2] == digits[0] && t[2..] == digits;
      NonzeroDigits(digits, 16);
    }
  }

  lemma SignIsSkipped(sign: string, t: string)
    requires (sign == "" || sign == "+" || sign == "-") && t != [] && t[0] != '-' && t[0] != '+'
    ensures Unsigned(sign + t) == t
  {
    if sign == "" {
      assert sign + t == t;
    } else {
      assert (sign + t)[0] == sign[0] && (sign + t)[1..] == t;
    }
  }

  lemma {:induction false} FirstDigit(n: nat)
    ensures forall c :: c in Digits(n) ==> IsDigit(c)
    ensures Digits(n) != [] && Digits(n)[0] != '-' && Digits(n)[0] != '+'
  {
    if n >= 10 {
      FirstDigit(n / 10);
    }
  }

  lemma {:induction false} DigitsLength(n: nat, k: nat)
    requires k >= 1 && n < Pow10(k)
    ensures |Digits(n)| <= k
  {
    if n >= 10 {
      DigitsLength(n / 10, k - 1);
    }
  }

  function Pow10(k: nat): nat {
    if k == 0 then 1 else 10 * Pow10(k - 1)
  }

  // ---------- Running over what was printed ----------

  /** The text shows seg from i on. */
  predicate Has(text: string, i: nat, seg: string) {
    i + |seg| <= |text| && text[i..i + |seg|] == seg
  }

  lemma HasBoth(text: string, i: nat, a: string, b: string)
    requires Has(text, i, a + b)
    ensures Has(text, i, a) && Has(text, i + |a|, b)
    ensures i + |a| <= |text|
  {
    assert text[i..i + |a|] == text[i..i + |a + b|][..|a|];
    assert text[i + |a|..i + |a| + |b|] == text[i..i + |a + b|][|a|..];
  }

  lemma HasHead(text: string, i: nat, seg: string)
    requires Has(text, i, seg) && seg != []
    ensures i < |text| && text[i] == seg[0] && Has(text, i + 1, seg[1..])
  {
    assert seg == seg[..1] + seg[1..];
    HasBoth(text, i, seg[..1], seg[1..]);
    assert text[i..i + 1][0] == seg[0];
  }

  predicate SkipsSpaces(phase: Phase) {
    phase.Init? || phase.AwaitAttr? || phase.AwaitValue?
  }

  lemma {:induction false} ReadBlank(table: seq<Attr>, text: string, i: nat, r: Reader, gap: string)
    requires i <= |text| && Ready(table, r) && SkipsSpaces(r.phase)
    requires Has(text, i, gap) && IsBlank(gap)
    ensures ReadFrom(table, text, i, r) == ReadFrom(table, text, i + |gap|, r)
    decreases |gap|
  {
    hide ReadFrom, Ready, IsSpace;
    if gap != [] {
      HasHead(text, i, gap);
      WhiteIff(gap[0]);
      Next(table, text, i, r);
      ReadBlank(table, text, i + 1, r, gap[1..]);
    }
  }

  lemma {:induction false} ReadName(table: seq<Attr>, text: string, i: nat, r: Reader, name: string)
    requires i <= |text| && Ready(table, r) && r.phase.InAttr?
    requires Has(text, i, name) && '"' !in name && |r.attr| + |name| <= JSON_ATTR_MAX - 1
    ensures Ready(table, r.(attr := r.attr + name))
    ensures ReadFrom(table, text, i, r) == ReadFrom(table, text, i + |name|, r.(attr := r.attr + name))
    decreases |name|
  {
    hide ReadFrom;
    if name == [] {
      assert r.attr + name == r.attr;
    } else {
      HasHead(text, i, name);
      Next(table, text, i, r);
      assert r.attr + name == r.attr + [name[0]] + name[1..];
      ReadName(table, text, i + 1, r.(attr := r.attr + [name[0]]), name[1..]);
    }
  }

  lemma ReadChar(table: seq<Attr>, text: string, i: nat, r: Reader, e: string, c: char)
    requires i <= |text| && Ready(table, r) && r.phase.InString? && Has(text, i, e) && IsReadable(e, c)
    ensures IsFull(r) ==> ReadFrom(table, text, i, r) == Outcome(ERR_STRLONG, r.fields)
    ensures !IsFull(r) ==>
      && Ready(table, r.(value := r.value + [c]))
      && ReadFrom(table, text, i, r) == ReadFrom(table, text, i + |e|, r.(value := r.value + [c]))
  {
    hide ReadFrom, AreTargets, IsTable;
    HasHead(text, i, e);
    Next(table, text, i, r);
    if |e| > 1 {
      HasHead(text, i + 1, e[1..]);
      Next(table, text, i + 1, r.(phase := InEscape));
      EscapeIsRead(text, i, r, e, c);
    }
  }

  /** Each escape takes one step from behind its reverse solidus. */
  lemma EscapeIsRead(text: string, i: nat, r: Reader, e: string, c: char)
    requires Has(text, i, e) && IsReadable(e, c) && |e| > 1 && r.phase.InString?
    ensures i + 1 < |text|
    ensures OnInEscape(text, i + 1, r.(phase := InEscape)) ==
            if IsFull(r) then Stop(ERR_STRLONG, r.fields) else Go(i + |e|, r.(value := r.value + [c]))
  {
    hide IsHex, Unescaped, IsHexOf;
    forall k | 0 <= k < |e|
      ensures text[i + k] == e[k]
    {
      assert text[i..i + |e|][k] == e[k];
    }
    if |e| == 6 {
      assert forall k :: 2 <= k < 6 ==> e[2..][k - 2] == e[k];
      HexOfLatin(text, i + 2, e[2..], c as int);
    } else {
      EscapeMeans(e[1], c);
    }
  }

  lemma EscapeMeans(e: char, c: char)
    requires IsEscapeOf(e, c)
    ensures e != 'u' && Unescaped(e) == c
  {}

  lemma DigitMeans(c: char, d: nat)
    requires IsDigitOf(c, d)
    ensures HexDigit(c) == d
  {}

  /** The reader finds the four digits, and makes of them the low byte of the number. */
  lemma HexOfLatin(text: string, i: nat, digits: string, v: nat)
    requires IsHexOf(digits, v) && Has(text, i, digits)
    ensures HasHex(text, i) && HexByte(text, i) as int == v % 256
  {
    hide IsDigitOf, HexDigit;
    assert forall k :: 0 <= k < 4 ==> text[i..i + 4][k] == digits[k];
    DigitMeans(digits[0], v / 4096);
    DigitMeans(digits[1], v / 256 % 16);
    DigitMeans(digits[2], v / 16 % 16);
    DigitMeans(digits[3], v % 16);
    LowByte(v);
  }

  lemma LowByte(v: nat)
    ensures 16 * (v / 16 % 16) + v % 16 == v % 256
  {}

  /**
   When a numbered escape is read as its character: what the reader adds to the value
   has the low byte of the number, so it is the character if and only if the number
   is below 256; and a low byte of 0 ends the string, whatever follows.
   */
  lemma NumberedEscapeIff(text: string, i: nat, r: Reader, digits: string, v: nat, rest: string)
    requires IsHexOf(digits, v) && Has(text, i, ['u'] + digits) && !IsFull(r)
    ensures i < |text|
    ensures var s := OnInEscape(text, i, r);
            && s.Go? && s.cp == i + 5 && |s.next.value| == |r.value| + 1 && r.value <= s.next.value
            && var c := s.next.value[|r.value|];
               && (c as int == v <==> v < 256)
               && c as int == v % 256
               && (c == '\0' ==> CString(s.next.value + rest) == CString(r.value))
  {
    hide IsFull, CString, IsHexOf;
    HasCons(text, i, 'u', digits);
    HexOfLatin(text, i + 1, digits, v);
    var c := HexByte(text, i + 1);
    if c == '\0' {
      NulEndsString(r.value, rest);
      assert r.value + [c] + rest == r.value + (['\0'] + rest);
    }
  }

  lemma {:induction false} NulEndsString(value: string, rest: string)
    ensures CString(value + (['\0'] + rest)) == CString(value)
  {
    if value != [] && value[0] != '\0' {
      NulEndsString(value[1..], rest);
      assert (value + (['\0'] + rest))[1..] == value[1..] + (['\0'] + rest);
    }
  }

  /** How many characters a string value may have. */
  function Limit(maxlen: int): int {
    if maxlen + 1 < JSON_VAL_MAX then maxlen + 1 else JSON_VAL_MAX
  }

  lemma {:induction false} ReadBody(table: seq<Attr>, text: string, i: nat, r: Reader,
                                    s: string, spelling: seq<string>)
    requires i <= |text| && Ready(table, r) && r.phase.InString? && Has(text, i, Body(spelling))
    requires AreReadable(spelling, s) && |r.value| <= Limit(r.maxlen)
    ensures |r.value| + |s| > Limit(r.maxlen) ==> ReadFrom(table, text, i, r) == Outcome(ERR_STRLONG, r.fields)
    ensures |r.value| + |s| <= Limit(r.maxlen) ==>
      && Ready(table, r.(value := r.value + s))
      && ReadFrom(table, text, i, r) == ReadFrom(table, text, i + |Body(spelling)|, r.(value := r.value + s))
    decreases |s|
  {
    hide ReadFrom, Ready, IsReadable;
    if s == [] {
      assert r.value + s == r.value;
    } else {
      HasBoth(text, i, spelling[0], Body(spelling[1..]));
      ReadChar(table, text, i, r, spelling[0], s[0]);
      if !IsFull(r) {
        assert r.value + s == r.value + [s[0]] + s[1..];
        ReadBody(table, text, i + |spelling[0]|, r.(value := r.value + [s[0]]), s[1..], spelling[1..]);
      }
    }
  }

  predicate IsToken(s: string) {
    forall c :: c in s ==> !IsSpace(c) && c != ',' && c != '}'
  }

  lemma TokenTail(s: string)
    requires IsToken(s) && s != []
    ensures !IsSpace(s[0]) && s[0] != ',' && s[0] != '}' && IsToken(s[1..])
  {
    hide IsSpace;
    assert s[0] in s && forall c :: c in s[1..] ==> c in s;
  }

  lemma {:induction false} ReadToken(table: seq<Attr>, text: string, i: nat, r: Reader, s: string)
    requires i <= |text| && Ready(table, r) && r.phase.InToken? && Has(text, i, s)
    requires IsToken(s) && |r.value| + |s| <= JSON_VAL_MAX
    ensures Ready(table, r.(value := r.value + s))
    ensures ReadFrom(table, text, i, r) == ReadFrom(table, text, i + |s|, r.(value := r.value + s))
    decreases |s|
  {
    hide ReadFrom, IsToken, IsSpace, Has;
    if s == [] {
      assert r.value + s == r.value;
    } else {
      HasHead(text, i, s);
      TokenTail(s);
      Next(table, text, i, r);
      assert r.value + s == r.value + [s[0]] + s[1..];
      ReadToken(table, text, i + 1, r.(value := r.value + [s[0]]), s[1..]);
    }
  }

  lemma {:induction false} SkipsGap(text: string, i: nat, gap: string)
    requires Has(text, i, gap) && IsBlank(gap)
    requires i + |gap| < |text| && !IsSpace(text[i + |gap|])
    ensures SkipSpaces(text, i) == i + |gap|
    decreases |gap|
  {
    hide IsSpace;
    if gap != [] {
      HasHead(text, i, gap);
      WhiteIff(gap[0]);
      SkipsGap(text, i + 1, gap[1..]);
    }
  }

  // ---------- One item ----------

  lemma {:induction false} CStringOf(s: string)
    requires '\0' !in s
    ensures CString(s) == s
  {
    if s != [] {
      CStringOf(s[1..]);
    }
  }

  lemma FindsName(table: seq<Attr>, k: nat)
    requires IsFlat(table) && k < |table|
    ensures Find(table, table[k].name, 0) == k && IsName(table[k].name)
  {
    var f := Find(table, table[k].name, 0);
    assert f <= k;
  }

  lemma SeekStays(table: seq<Attr>, k: nat, quoted: bool, value: string)
    requires IsFlat(table) && k < |table|
    ensures Seek(table, k, table[k].name, quoted, value) == k
  {}

  lemma HasCons(text: string, i: nat, c: char, rest: string)
    requires Has(text, i, [c] + rest)
    ensures i < |text| && text[i] == c && Has(text, i + 1, rest)
  {
    HasHead(text, i, [c] + rest);
  }

  /** The limit for a string goes with the attribute, but one that is no string leaves the limit as it was. */
  function MaxLen(kind: Kind, maxlen: int): int {
    if kind.Text? then kind.len - 1 else maxlen
  }

  /** From the closing quote of a name on, with no more white space than is printed. */
  lemma ReadColon(table: seq<Attr>, text: string, i: nat, r: Reader, l: Layout) returns (next: Reader)
    requires i <= |text| && Ready(table, r) && r.phase.InAttr? && IsFlat(table) && IsLayout(l)
    requires Find(table, r.attr, 0) < |table|
    requires Has(text, i, ['"'] + (l.afterName + ([':'] + l.beforeValue)))
    ensures Ready(table, next)
    ensures next == r.(phase := AwaitValue, value := "", cursor := Find(table, r.attr, 0), maxlen := next.maxlen)
    ensures next.maxlen == MaxLen(table[next.cursor].kind, r.maxlen)
    ensures ReadFrom(table, text, i, r) ==
            ReadFrom(table, text, i + 1 + |l.afterName| + 1 + |l.beforeValue|, next)
  {
    hide ReadFrom, IsBlank, IsSpace, Find;
    HasCons(text, i, '"', l.afterName + ([':'] + l.beforeValue));
    Next(table, text, i, r);
    next := Step(table, text, i, r).next;
    HasBoth(text, i + 1, l.afterName, [':'] + l.beforeValue);
    ReadBlank(table, text, i + 1, next, l.afterName);
    var m := i + 1 + |l.afterName|;
    HasCons(text, m, ':', l.beforeValue);
    Next(table, text, m, next);
    ReadBlank(table, text, m + 1, next, l.beforeValue);
  }

  /** From the white space before a name to the first character of its value. */
  lemma ReadAttr(table: seq<Attr>, text: string, i: nat, r: Reader, k: nat, l: Layout) returns (next: Reader)
    requires i <= |text| && Ready(table, r) && r.phase.AwaitAttr?
    requires IsFlat(table) && k < |table| && IsLayout(l)
    requires Has(text, i, PrintName(l, table[k].name))
    ensures Ready(table, next)
    ensures next == r.(phase := AwaitValue, attr := table[k].name, value := "", cursor := k, maxlen := next.maxlen)
    ensures next.maxlen == MaxLen(table[k].kind, r.maxlen)
    ensures ReadFrom(table, text, i, r) == ReadFrom(table, text, i + |PrintName(l, table[k].name)|, next)
  {
    hide ReadFrom, IsBlank, Find, Has, IsFlat, IsTarget;
    FindsName(table, k);
    var name := table[k].name;
    var tail := ['"'] + (l.afterName + ([':'] + l.beforeValue));
    HasBoth(text, i, l.before, ['"'] + (name + tail));
    ReadBlank(table, text, i, r, l.before);
    var j := i + |l.before|;
    HasCons(text, j, '"', name + tail);
    Next(table, text, j, r);
    HasBoth(text, j + 1, name, tail);
    var named := r.(phase := InAttr, attr := "");
    ReadName(table, text, j + 1, named, name);
    assert named.attr + name == name;
    next := ReadColon(table, text, j + 1 + |name|, named.(attr := name), l);
  }

  /** From the end of a value over white space to the comma or the brace; field gets the value. */
  lemma ReadEnd(table: seq<Attr>, text: string, i: nat, r: Reader, gap: string, c: char, kept: Field)
    requires i <= |text| && Ready(table, r) && r.phase.PostVal? && IsFlat(table) && IsBlank(gap)
    requires Has(text, i, gap + [c]) && (c == ',' || c == '}')
    requires r.attr == table[r.cursor].name && r.quoted == table[r.cursor].kind.Text?
    requires Stored(table[r.cursor].kind, r.fields[r.cursor], CString(r.value)) == kept
    ensures IsTarget(table[r.cursor].kind, kept)
    ensures var fields := r.fields[r.cursor := kept];
            ReadFrom(table, text, i, r) ==
            if c == '}' then Outcome(0, fields)
            else ReadFrom(table, text, i + |gap| + 1, r.(phase := AwaitAttr, fields := fields))
  {
    hide ReadFrom, Seek, Stored, IsTarget, IsBlank, CString;
    HasBoth(text, i, gap, [c]);
    HasCons(text, i + |gap|, c, []);
    SkipsGap(text, i, gap);
    SeekStays(table, r.cursor, r.quoted, CString(r.value));
    Next(table, text, i, r);
  }

  /** A token is ended by white space, which is passed over, or by the comma or brace, which is not. */
  lemma ReadTokenEnd(table: seq<Attr>, text: string, i: nat, r: Reader, gap: string, c: char, kept: Field)
    requires i <= |text| && Ready(table, r) && r.phase.InToken? && IsFlat(table) && IsBlank(gap)
    requires Has(text, i, gap + [c]) && (c == ',' || c == '}')
    requires r.attr == table[r.cursor].name && !r.quoted && !table[r.cursor].kind.Text?
    requires Stored(table[r.cursor].kind, r.fields[r.cursor], CString(r.value)) == kept
    ensures IsTarget(table[r.cursor].kind, kept)
    ensures var fields := r.fields[r.cursor := kept];
            ReadFrom(table, text, i, r) ==
            if c == '}' then Outcome(0, fields)
            else ReadFrom(table, text, i + |gap| + 1, r.(phase := AwaitAttr, fields := fields))
  {
    hide ReadFrom, Stored, IsTarget, CString, AreTargets;
    HasHead(text, i, gap + [c]);
    Next(table, text, i, r);
    var ended := r.(phase := PostVal);
    if gap == [] {
      ReadEnd(table, text, i, ended, gap, c, kept);
    } else {
      assert gap[0] in gap;
      WhiteIff(gap[0]);
      assert (gap + [c])[1..] == gap[1..] + [c];
      ReadEnd(table, text, i + 1, ended, gap[1..], c, kept);
    }
  }

  // ---------- Values ----------

  predicate Fits(kind: Kind, value: Value) {
    kind.Text? && value.TextValue? ==> |value.s| <= Limit(kind.len - 1)
  }

  lemma TokenOf(kind: Kind, value: Value, field: Field)
    requires HasType(kind, value) && !kind.Text? && IsTarget(kind, field)
    ensures var t := PrintValue(value);
            && 0 < |t| <= 11 && IsToken(t) && '\0' !in t
            && t[0] != ':' && t[0] != '[' && t[0] != '{' && t[0] != '"'
            && Stored(kind, field, t) == Kept(kind, field, value)
  {
    hide Atoi, Decimal;
    match value
    case IntValue(n) =>
      DecimalIsToken(n);
      DecimalIsNonzero(n);
    case BoolValue(b) =>
  }

  lemma {:induction false} LeadingDigit(n: nat)
    ensures n > 0 ==> Digits(n)[0] != '0'
    ensures n == 0 ==> Digits(n) == "0"
  {
    if n >= 10 {
      LeadingDigit(n / 10);
    }
  }

  /** A decimal number, which has no leading 0, is read as decimal, and is true unless it is 0. */
  lemma DecimalIsNonzero(n: int)
    ensures IsNonzero(Decimal(n)) <==> n != 0
    ensures Decimal(n) != "true"
  {
    hide Digits;
    var m: nat := if n < 0 then -n else n;
    FirstDigit(m);
    LeadingDigit(m);
    assert Digits(m)[0] in Digits(m);
    assert Unsigned(Decimal(n)) == Digits(m);
    if m == 0 {
      assert "0"[1..] == "" && !HasNonzeroDigit("", 8);
      assert !HasNonzeroDigit("0", 8);
    } else {
      assert HasNonzeroDigit(Digits(m), 10);
    }
  }

  lemma DecimalIsToken(n: int)
    requires -0x8000_0000 <= n <= 0x7fff_ffff
    ensures var t := Decimal(n);
            && 0 < |t| <= 11 && IsToken(t) && '\0' !in t
            && t[0] != ':' && t[0] != '[' && t[0] != '{' && t[0] != '"'
            && Atoi(t) == n
  {
    hide Atoi, Digits;
    var m: nat := if n < 0 then -n else n;
    FirstDigit(m);
    assert Digits(m)[0] in Digits(m);
    assert Pow10(10) == 10000000000;
    DigitsLength(m, 10);
    AtoiDecimal(n);
  }

  /** The kinds of entry that a value is meant for: a number suits a truth value too, unless it is negative. */
  predicate Suits(kind: Kind, value: Value) {
    match value
    case IntValue(n) => n >= 0 && !kind.Text?
    case BoolValue(_) => kind.Boolean?
    case TextValue(_, _) => kind.Text?
  }

  /** A string that might be taken for a number or a truth value. */
  predicate LooksBare(s: string) {
    s == "true" || s == "false" || (s != [] && '0' <= s[0] <= '9')
  }

  /** The value as the reader collects it. */
  function Collected(value: Value): string {
    if value.TextValue? then value.s else PrintValue(value)
  }

  lemma SuitsIff(kind: Kind, value: Value)
    requires value.TextValue? ==> !LooksBare(value.s)
    ensures Matches(kind, value.TextValue?, Collected(value)) <==> Suits(kind, value)
  {
    hide Digits;
    match value
    case IntValue(n) =>
      var m: nat := if n < 0 then -n else n;
      FirstDigit(m);
      assert Digits(m)[0] in Digits(m);
      assert forall c :: c in Digits(m) ==> c != '.';
      assert n >= 0 ==> Decimal(n) == Digits(m);
    case BoolValue(b) =>
    case TextValue(s, _) =>
  }

  lemma {:induction false} SeekRuns(table: seq<Attr>, cursor: nat, name: string, quoted: bool, value: string)
    requires cursor < |table|
    ensures var found := Seek(table, cursor, name, quoted, value);
            && cursor <= found < |table|
            && (forall m :: cursor <= m < found ==> !Matches(table[m].kind, quoted, value))
            && (forall m :: cursor < m <= found ==> table[m].name == name)
            && (Matches(table[found].kind, quoted, value) || found + 1 == |table| || table[found + 1].name != name)
    decreases |table| - cursor
  {
    hide Matches;
    if Seek(table, cursor, name, quoted, value) != cursor || !Matches(table[cursor].kind, quoted, value) {
      if cursor + 1 < |table| && table[cursor + 1].name == name {
        SeekRuns(table, cursor + 1, name, quoted, value);
      }
    }
  }

  /**
   Where adjacent entries of a table share a name, the value goes to the first of
   them that it suits, or to the last one if it suits none.
   */
  lemma FirstSuitable(table: seq<Attr>, cursor: nat, name: string, value: Value)
    requires cursor < |table| && (value.TextValue? ==> !LooksBare(value.s))
    ensures var found := Seek(table, cursor, name, value.TextValue?, Collected(value));
            && cursor <= found < |table|
            && (forall m :: cursor <= m < found ==> !Suits(table[m].kind, value))
            && (forall m :: cursor < m <= found ==> table[m].name == name)
            && (Suits(table[found].kind, value) || found + 1 == |table| || table[found + 1].name != name)
  {
    hide Suits, Matches, Collected, LooksBare;
    forall kind: Kind
      ensures Matches(kind, value.TextValue?, Collected(value)) <==> Suits(kind, value)
    {
      SuitsIff(kind, value);
    }
    SeekRuns(table, cursor, name, value.TextValue?, Collected(value));
  }

  /** What the reader is left with after a value and a comma. */
  ghost predicate IsAfter(table: seq<Attr>, r: Reader, next: Reader, kept: Field)
    requires r.cursor < |r.fields|
  {
    && Ready(table, next) && next.phase.AwaitAttr?
    && next.fields == r.fields[r.cursor := kept] && next.maxlen == r.maxlen
  }

  /** The characters of a token, up to what ends it. */
  lemma ThroughToken(table: seq<Attr>, text: string, i: nat, r: Reader, t: string) returns (next: Reader)
    requires i <= |text| && Ready(table, r) && r.phase.AwaitValue? && Has(text, i, t)
    requires 0 < |t| <= JSON_VAL_MAX && IsToken(t) && t[0] != ':' && t[0] != '[' && t[0] != '{' && t[0] != '"'
    ensures next == r.(phase := InToken, quoted := false, value := t) && Ready(table, next)
    ensures i + |t| <= |text| && ReadFrom(table, text, i, r) == ReadFrom(table, text, i + |t|, next)
  {
    hide ReadFrom, IsToken, AreTargets;
    HasHead(text, i, t);
    TokenTail(t);
    Next(table, text, i, r);
    next := r.(phase := InToken, quoted := false, value := [t[0]]);
    ReadToken(table, text, i + 1, next, t[1..]);
    assert next.value + t[1..] == t;
    next := next.(value := t);
  }

  /** A quoted string, up to what follows its closing quote, or the error when it is too long. */
  lemma ThroughText(table: seq<Attr>, text: string, i: nat, r: Reader, s: string, spelling: seq<string>)
    returns (next: Reader)
    requires i <= |text| && Ready(table, r) && r.phase.AwaitValue? && Has(text, i, ['"'] + (Body(spelling) + ['"']))
    requires AreReadable(spelling, s) && 0 <= Limit(r.maxlen)
    ensures |s| > Limit(r.maxlen) ==> ReadFrom(table, text, i, r) == Outcome(ERR_STRLONG, r.fields)
    ensures i + |Body(spelling)| + 2 <= |text|
    ensures |s| <= Limit(r.maxlen) ==>
      && next == r.(phase := PostVal, quoted := true, value := s) && Ready(table, next)
      && ReadFrom(table, text, i, r) == ReadFrom(table, text, i + |Body(spelling)| + 2, next)
  {
    hide ReadFrom, Body, AreTargets, AreReadable;
    HasCons(text, i, '"', Body(spelling) + ['"']);
    Next(table, text, i, r);
    next := r.(phase := InString, quoted := true, value := "");
    HasBoth(text, i + 1, Body(spelling), ['"']);
    ReadBody(table, text, i + 1, next, s, spelling);
    var e := i + 1 + |Body(spelling)|;
    HasHead(text, e, ['"']);
    if |s| <= Limit(r.maxlen) {
      assert next.value + s == s;
      next := next.(value := s);
      Next(table, text, e, next);
      next := next.(phase := PostVal);
    }
  }

  lemma ReadTokenValue(table: seq<Attr>, text: string, i: nat, r: Reader, t: string, gap: string, c: char, kept: Field)
    returns (next: Reader)
    requires i <= |text| && Ready(table, r) && r.phase.AwaitValue? && IsFlat(table) && IsBlank(gap)
    requires r.attr == table[r.cursor].name && !table[r.cursor].kind.Text?
    requires 0 < |t| <= 11 && IsToken(t) && '\0' !in t && t[0] != ':' && t[0] != '[' && t[0] != '{' && t[0] != '"'
    requires Stored(table[r.cursor].kind, r.fields[r.cursor], t) == kept
    requires Has(text, i, t + (gap + [c])) && (c == ',' || c == '}')
    ensures c == '}' ==> ReadFrom(table, text, i, r) == Outcome(0, r.fields[r.cursor := kept])
    ensures c == ',' ==>
      && IsAfter(table, r, next, kept)
      && ReadFrom(table, text, i, r) == ReadFrom(table, text, i + |t| + |gap| + 1, next)
  {
    hide ReadFrom, Stored, IsBlank, IsToken, Has, IsFlat, IsTarget, CString;
    HasBoth(text, i, t, gap + [c]);
    next := ThroughToken(table, text, i, r, t);
    CStringOf(t);
    ReadTokenEnd(table, text, i + |t|, next, gap, c, kept);
    next := next.(phase := AwaitAttr, fields := r.fields[r.cursor := kept]);
  }

  lemma ReadTextValue(table: seq<Attr>, text: string, i: nat, r: Reader, s: string, spelling: seq<string>,
                      gap: string, c: char, kept: Field)
    returns (next: Reader)
    requires i <= |text| && Ready(table, r) && r.phase.AwaitValue? && IsFlat(table) && IsBlank(gap)
    requires r.attr == table[r.cursor].name && table[r.cursor].kind.Text? && r.maxlen == table[r.cursor].kind.len - 1
    requires '\0' !in s && AreReadable(spelling, s)
    requires Stored(table[r.cursor].kind, r.fields[r.cursor], s) == kept
    requires Has(text, i, (['"'] + (Body(spelling) + ['"'])) + (gap + [c])) && (c == ',' || c == '}')
    ensures |s| > Limit(r.maxlen) ==> ReadFrom(table, text, i, r) == Outcome(ERR_STRLONG, r.fields)
    ensures |s| <= Limit(r.maxlen) && c == '}' ==> ReadFrom(table, text, i, r) == Outcome(0, r.fields[r.cursor := kept])
    ensures |s| <= Limit(r.maxlen) && c == ',' ==>
      && IsAfter(table, r, next, kept)
      && ReadFrom(table, text, i, r) == ReadFrom(table, text, i + |Body(spelling)| + 2 + |gap| + 1, next)
  {
    hide ReadFrom, Stored, IsBlank, Body, IsTarget, IsFlat, CString, Has, AreReadable;
    HasBoth(text, i, ['"'] + (Body(spelling) + ['"']), gap + [c]);
    next := ThroughText(table, text, i, r, s, spelling);
    if |s| <= Limit(r.maxlen) {
      CStringOf(s);
      ReadEnd(table, text, i + |Body(spelling)| + 2, next, gap, c, kept);
      next := next.(phase := AwaitAttr, fields := r.fields[r.cursor := kept]);
    }
  }

  /** A value and what ends it: the target gets the value, or the string is too long. */
  lemma ReadValue(table: seq<Attr>, text: string, i: nat, r: Reader, value: Value, gap: string, c: char)
    returns (next: Reader)
    requires i <= |text| && Ready(table, r) && r.phase.AwaitValue? && IsFlat(table) && IsBlank(gap)
    requires r.attr == table[r.cursor].name && HasType(table[r.cursor].kind, value)
    requires table[r.cursor].kind.Text? ==> r.maxlen == table[r.cursor].kind.len - 1
    requires Has(text, i, PrintValue(value) + (gap + [c])) && (c == ',' || c == '}')
    ensures !Fits(table[r.cursor].kind, value) ==> ReadFrom(table, text, i, r) == Outcome(ERR_STRLONG, r.fields)
    ensures Fits(table[r.cursor].kind, value) ==>
      var kept := Kept(table[r.cursor].kind, r.fields[r.cursor], value);
      if c == '}' then ReadFrom(table, text, i, r) == Outcome(0, r.fields[r.cursor := kept])
      else
        && IsAfter(table, r, next, kept)
        && ReadFrom(table, text, i, r) == ReadFrom(table, text, i + |PrintValue(value)| + |gap| + 1, next)
  {
    hide ReadFrom, CString, IsBlank, Body, Has, Fitted, IsAfter, AreReadable;
    var kind := table[r.cursor].kind;
    var kept := Kept(kind, r.fields[r.cursor], value);
    if kind.Text? {
      next := ReadTextValue(table, text, i, r, value.s, value.spelling, gap, c, kept);
    } else {
      TokenOf(kind, value, r.fields[r.cursor]);
      next := ReadTokenValue(table, text, i, r, PrintValue(value), gap, c, kept);
    }
  }

  // ---------- Whole configurations ----------

  /** Every string fits the reader's limit for its attribute. */
  predicate AllFit(table: seq<Attr>, items: seq<Item>)
    requires AreItems(table, items)
  {
    forall m :: 0 <= m < |items| ==> Fits(table[items[m].attr].kind, items[m].value)
  }

  lemma ReadItem(table: seq<Attr>, text: string, i: nat, r: Reader, item: Item, c: char) returns (next: Reader)
    requires i <= |text| && Ready(table, r) && r.phase.AwaitAttr? && IsFlat(table) && IsItem(table, item)
    requires Has(text, i, PrintItem(table, item) + [c]) && (c == ',' || c == '}')
    ensures var kind := table[item.attr].kind;
            if !Fits(kind, item.value) then ReadFrom(table, text, i, r) == Outcome(ERR_STRLONG, r.fields)
            else
              var fields := r.fields[item.attr := Kept(kind, r.fields[item.attr], item.value)];
              if c == '}' then ReadFrom(table, text, i, r) == Outcome(0, fields)
              else
                && Ready(table, next) && next.phase.AwaitAttr? && next.fields == fields
                && next.maxlen == MaxLen(kind, r.maxlen)
                && ReadFrom(table, text, i, r) == ReadFrom(table, text, i + |PrintItem(table, item)| + 1, next)
  {
    hide ReadFrom, Has, Kept, Fits, PrintValue, PrintName, IsBlank;
    var name, end := PrintName(item.layout, table[item.attr].name), item.layout.afterValue + [c];
    assert PrintItem(table, item) + [c] == name + (PrintValue(item.value) + end);
    HasBoth(text, i, name, PrintValue(item.value) + end);
    next := ReadAttr(table, text, i, r, item.attr, item.layout);
    next := ReadValue(table, text, i + |name|, next, item.value, item.layout.afterValue, c);
  }

  lemma {:induction false} ReadItems(table: seq<Attr>, text: string, i: nat, r: Reader, items: seq<Item>)
    requires i <= |text| && Ready(table, r) && r.phase.AwaitAttr? && IsFlat(table) && AreItems(table, items)
    requires Has(text, i, PrintItems(table, items)) && (items == [] ==> i + 1 == |text|)
    ensures ReadFrom(table, text, i, r).status == if AllFit(table, items) then 0 else ERR_STRLONG
    ensures AllFit(table, items) ==> ReadFrom(table, text, i, r).fields == KeptAll(table, r.fields, items)
    decreases |items|
  {
    hide ReadFrom, Kept, PrintItem, Fits;
    if items == [] {
      HasHead(text, i, "}");
      Next(table, text, i, r);
      AtEnd(table, text, r);
    } else if |items| == 1 {
      assert PrintItems(table, items) == PrintItem(table, items[0]) + ['}'];
      var _ := ReadItem(table, text, i, r, items[0], '}');
    } else {
      assert PrintItems(table, items) == (PrintItem(table, items[0]) + [',']) + PrintItems(table, items[1..]);
      HasBoth(text, i, PrintItem(table, items[0]) + [','], PrintItems(table, items[1..]));
      var next := ReadItem(table, text, i, r, items[0], ',');
      if Fits(table[items[0].attr].kind, items[0].value) {
        ReadItems(table, text, i + |PrintItem(table, items[0])| + 1, next, items[1..]);
        AllFitRest(table, items);
      }
    }
  }

  lemma AllFitRest(table: seq<Attr>, items: seq<Item>)
    requires AreItems(table, items) && items != []
    ensures AllFit(table, items) <==> Fits(table[items[0].attr].kind, items[0].value) && AllFit(table, items[1..])
  {
    hide Fits;
    forall m | 1 <= m < |items| && AllFit(table, items[1..])
      ensures Fits(table[items[m].attr].kind, items[m].value)
    {
      assert items[m] == items[1..][m - 1];
    }
  }

  /**
   Round trip: whatever the order and the layout of its attributes, a printed
   configuration is accepted if and only if every string fits the reader's limit,
   and then the targets hold the values, in place of the defaults.
   */
  lemma RoundTrip(table: seq<Attr>, fields: seq<Field>, lead: string, items: seq<Item>)
    requires IsFlat(table) && AreTargets(table, fields) && AreItems(table, items) && IsBlank(lead)
    ensures var o := Read(table, Print(table, lead, items), fields);
            && (o.status == 0 <==> AllFit(table, items))
            && (o.status != 0 ==> o.status == ERR_STRLONG)
            && (o.status == 0 ==> o.fields == KeptAll(table, Defaults(table, fields), items))
  {
    hide ReadFrom, Defaults, KeptAll, AllFit, PrintItems;
    var text, r := Print(table, lead, items), Start(table, fields);
    var rest := PrintItems(table, items);
    assert text == lead + (['{'] + rest);
    assert Has(text, 0, lead + (['{'] + rest));
    HasBoth(text, 0, lead, ['{'] + rest);
    ReadBlank(table, text, 0, r, lead);
    HasCons(text, |lead|, '{', rest);
    Next(table, text, |lead|, r);
    NothingPrinted(table, items);
    ReadItems(table, text, |lead| + 1, r.(phase := AwaitAttr), items);
  }

  lemma NothingPrinted(table: seq<Attr>, items: seq<Item>)
    requires AreItems(table, items)
    ensures items == [] ==> PrintItems(table, items) == "}"
  {}

  /** The values of a configuration that names no attribute twice, one by one. */
  lemma {:induction false} KeptEach(table: seq<Attr>, fields: seq<Field>, items: seq<Item>, k: nat)
    requires IsTable(table) && AreTargets(table, fields) && AreItems(table, items) && k < |table|
    requires forall m, n :: 0 <= m < n < |items| ==> items[m].attr != items[n].attr
    ensures forall m :: 0 <= m < |items| && items[m].attr == k ==>
              KeptAll(table, fields, items)[k] == Kept(table[k].kind, fields[k], items[m].value)
    ensures (forall m :: 0 <= m < |items| ==> items[m].attr != k) ==> KeptAll(table, fields, items)[k] == fields[k]
    decreases |items|
  {
    hide Kept;
    if items != [] {
      var a := items[0].attr;
      var stored := fields[a := Kept(table[a].kind, fields[a], items[0].value)];
      KeptEach(table, stored, items[1..], k);
      forall m | 0 <= m < |items| && items[m].attr == k
        ensures KeptAll(table, fields, items)[k] == Kept(table[k].kind, fields[k], items[m].value)
      {
        if m > 0 {
          assert items[1..][m - 1] == items[m];
        }
      }
    }
  }

  /** What a target should hold for a value, given what it held before the reader ran. */
  predicate IsHeld(kind: Kind, value: Value, before: Field, after: Field)
    requires IsTarget(kind, before) && HasType(kind, value)
  {
    match kind
    case Integer => after == Number(value.n)
    case Boolean => after == Truth(if value.BoolValue? then value.b else value.n != 0)
    case Text(len) =>
      && after.Memory? && |after.chars| == len
      && forall k :: 0 <= k < len ==>
           after.chars[k] == if k == len - 1 then (if k == 0 then '\0' else before.chars[k])
                             else if k < |value.s| then value.s[k] else '\0'
  }

  /** What a target should hold when its attribute is not named. */
  predicate IsDefault(kind: Kind, before: Field, after: Field)
    requires IsTarget(kind, before)
  {
    match kind
    case Integer => after == Number(0)
    case Boolean => after == Truth(false)
    case Text(len) =>
      && after.Memory? && |after.chars| == len
      && forall k :: 0 <= k < len ==> after.chars[k] == if k == 0 then '\0' else before.chars[k]
  }

  lemma KeptIsHeld(kind: Kind, value: Value, before: Field)
    requires IsTarget(kind, before) && HasType(kind, value) && (kind.Text? ==> kind.len >= 1)
    ensures IsHeld(kind, value, before, Kept(kind, Default(kind, before), value))
  {
    hide AreReadable;
  }

  /**
   A configuration that names no attribute twice and whose strings all fit: the
   status is 0, every named target holds exactly its value, and every other one
   its default.
   */
  lemma ConfigurationIsRead(table: seq<Attr>, fields: seq<Field>, lead: string, items: seq<Item>, k: nat)
    requires IsFlat(table) && AreTargets(table, fields) && AreItems(table, items) && IsBlank(lead)
    requires forall m, n :: 0 <= m < n < |items| ==> items[m].attr != items[n].attr
    requires AllFit(table, items) && k < |table|
    ensures var o := Read(table, Print(table, lead, items), fields);
            && o.status == 0
            && (forall m :: 0 <= m < |items| && items[m].attr == k ==>
                  IsHeld(table[k].kind, items[m].value, fields[k], o.fields[k]))
            && ((forall m :: 0 <= m < |items| ==> items[m].attr != k) ==>
                  IsDefault(table[k].kind, fields[k], o.fields[k]))
  {
    hide Read, KeptAll, Kept, Default, AllFit, IsHeld, IsDefault, HasType, IsTarget;
    RoundTrip(table, fields, lead, items);
    KeptEach(table, Defaults(table, fields), items, k);
    forall m | 0 <= m < |items| && items[m].attr == k
      ensures IsHeld(table[k].kind, items[m].value, fields[k],
                     Read(table, Print(table, lead, items), fields).fields[k])
    {
      KeptIsHeld(table[k].kind, items[m].value, fields[k]);
    }
    DefaultIsDefault(table[k].kind, fields[k]);
  }

  lemma DefaultIsDefault(kind: Kind, before: Field)
    requires IsTarget(kind, before) && (kind.Text? ==> kind.len >= 1)
    ensures IsDefault(kind, before, Default(kind, before))
  {}

  /** The memory holds s as a C string. */
  predicate HoldsString(chars: string, s: string) {
    |s| < |chars| && chars[..|s|] == s && chars[|s|] == '\0'
  }

  /**
   An accepted string can be read back from its target if and only if it is
   shorter than the target, and the target's last byte, which the reader never
   writes, was NUL already in case the string needs it as its end.
   */
  lemma StringIsHeldIff(len: nat, chars: string, s: string, spelling: seq<string>)
    requires len >= 1 && |chars| == len && |s| <= Limit(len - 1) && HasType(Text(len), TextValue(s, spelling))
    ensures HoldsString(Kept(Text(len), Memory(chars), TextValue(s, spelling)).chars, s) <==>
            |s| < len && (|s| == len - 1 ==> chars[len - 1] == '\0')
  {
    hide AreReadable;
    var held := Kept(Text(len), Memory(chars), TextValue(s, spelling)).chars;
    if |s| < len - 1 {
      assert held[..|s|] == s;
    } else if |s| == len - 1 {
      assert held == s + chars[len - 1..];
    }
  }
}
