/**
 What the reader answers to a configuration that is wrong: after any items that are
 right, each kind of fault has its own status, nothing behind the fault is looked
 at, and the items before it have been stored.
 */
module JsonFaults {
  import opened JsonModel
  import opened JsonRoundTrip

  datatype Fault =
    | NoName(gap: string, c: char)
    | LongName(gap: string, name: string)
    | UnknownName(gap: string, name: string)
    | Nested(attr: nat, layout: Layout, open: char)
    | LongToken(attr: nat, layout: Layout, token: string)
    | BareText(attr: nat, layout: Layout, token: string, end: char)
    | LongText(attr: nat, layout: Layout, s: string, spelling: seq<string>)
    | QuotedValue(attr: nat, layout: Layout, s: string, spelling: seq<string>, end: char)
    | BadNumber(attr: nat, layout: Layout, s: string, spelling: seq<string>, digits: string, end: char)
    | NoComma(item: Item, c: char)

  /** A token may be any run of characters that neither ends one nor begins another kind of value. */
  predicate IsBare(t: string) {
    && t != [] && t[0] != ':' && t[0] != '[' && t[0] != '{' && t[0] != '"'
    && forall c :: c in t ==> !IsWhite(c) && c != ',' && c != '}'
  }

  /** The limit for strings once these items have been read: that of the last string, 0 at first. */
  function MaxLenAfter(table: seq<Attr>, maxlen: int, items: seq<Item>): int
    requires AreItems(table, items)
    decreases |items|
  {
    if items == [] then maxlen
    else MaxLenAfter(table, MaxLen(table[items[0].attr].kind, maxlen), items[1..])
  }

  predicate IsFault(table: seq<Attr>, maxlen: int, f: Fault) {
    match f
    case NoName(gap, c) => IsBlank(gap) && !IsWhite(c) && c != '"' && c != '}'
    case LongName(gap, name) => IsBlank(gap) && |name| == 31 && '"' !in name
    case UnknownName(gap, name) =>
      IsBlank(gap) && |name| <= 30 && '"' !in name && forall k :: 0 <= k < |table| ==> table[k].name != name
    case Nested(k, l, open) => k < |table| && IsLayout(l) && (open == '[' || open == '{')
    case LongToken(k, l, token) => k < |table| && IsLayout(l) && IsBare(token) && |token| == 513
    case BareText(k, l, token, end) =>
      && k < |table| && IsLayout(l) && IsBare(token) && |token| <= 512 && table[k].kind.Text?
      && (end == ',' || end == '}')
    case LongText(k, l, s, spelling) =>
      && k < |table| && IsLayout(l) && AreReadable(spelling, s) && |s| > Limit(MaxLen(table[k].kind, maxlen))
    case QuotedValue(k, l, s, spelling, _) =>
      && k < |table| && IsLayout(l) && AreReadable(spelling, s) && |s| <= Limit(MaxLen(table[k].kind, maxlen))
      && !table[k].kind.Text?
    case BadNumber(k, l, s, spelling, digits, end) =>
      && k < |table| && IsLayout(l) && AreReadable(spelling, s) && |s| < Limit(MaxLen(table[k].kind, maxlen))
      && |digits| < 4 && (forall c :: c in digits ==> IsSomeDigit(c)) && !IsSomeDigit(end)
    case NoComma(item, c) =>
      && IsItem(table, item) && Fits(table[item.attr].kind, item.value)
      && !IsWhite(c) && c != ',' && c != '}' && (item.layout.afterValue == [] ==> item.value.TextValue?)
  }

  /** The text of the fault. */
  function Shown(table: seq<Attr>, maxlen: int, f: Fault): string
    requires IsFault(table, maxlen, f)
  {
    match f
    case NoName(gap, c) => gap + [c]
    case LongName(gap, name) => gap + (['"'] + name)
    case UnknownName(gap, name) => gap + (['"'] + (name + ['"']))
    case Nested(k, l, open) => PrintName(l, table[k].name) + [open]
    case LongToken(k, l, token) => PrintName(l, table[k].name) + token
    case BareText(k, l, token, end) => PrintName(l, table[k].name) + (token + [end])
    case LongText(k, l, _, spelling) => PrintName(l, table[k].name) + (['"'] + Body(spelling))
    case QuotedValue(k, l, _, spelling, end) =>
      PrintName(l, table[k].name) + ((['"'] + (Body(spelling) + ['"'])) + [end])
    case BadNumber(k, l, _, spelling, digits, end) =>
      PrintName(l, table[k].name) + (['"'] + (Body(spelling) + (['\\'] + (['u'] + (digits + [end])))))
    case NoComma(item, c) => PrintItem(table, item) + [c]
  }

  /** The numbers that mjson.h gives the faults. */
  function Status(f: Fault): nat {
    match f
    case NoName(_, _) => 2
    case LongName(_, _) => 4
    case UnknownName(_, _) => 3
    case Nested(_, _, _) => 5
    case LongToken(_, _, _) => 8
    case BareText(_, _, _, _) => 20
    case LongText(_, _, _, _) => 7
    case QuotedValue(_, _, _, _, _) => 19
    case BadNumber(_, _, _, _, _, _) => 15
    case NoComma(_, _) => 9
  }

  /** A value that is right but for what follows it is stored. */
  function Left(table: seq<Attr>, maxlen: int, fields: seq<Field>, f: Fault): seq<Field>
    requires IsTable(table) && AreTargets(table, fields) && IsFault(table, maxlen, f)
  {
    match f
    case NoComma(item, _) =>
      fields[item.attr := Kept(table[item.attr].kind, fields[item.attr], item.value)]
    case _ => fields
  }

  // ---------- Names ----------

  lemma NameFaults(table: seq<Attr>, text: string, i: nat, r: Reader, gap: string, c: char)
    requires i <= |text| && Ready(table, r) && r.phase.AwaitAttr? && Has(text, i, gap + [c]) && IsBlank(gap)
    requires !IsWhite(c) && c != '"' && c != '}'
    ensures ReadFrom(table, text, i, r) == Outcome(2, r.fields)
  {
    hide ReadFrom, IsBlank, IsWhite, AreTargets, IsTable;
    HasBoth(text, i, gap, [c]);
    ReadBlank(table, text, i, r, gap);
    HasHead(text, i + |gap|, [c]);
    WhiteIff(c);
    Next(table, text, i + |gap|, r);
  }

  /** Up to behind the opening quote of a name. */
  lemma ReadQuote(table: seq<Attr>, text: string, i: nat, r: Reader, gap: string, rest: string) returns (next: Reader)
    requires i <= |text| && Ready(table, r) && r.phase.AwaitAttr? && IsBlank(gap)
    requires Has(text, i, gap + (['"'] + rest))
    ensures next == r.(phase := InAttr, attr := "") && Ready(table, next)
    ensures i + |gap| + 1 <= |text| && Has(text, i + |gap| + 1, rest)
    ensures ReadFrom(table, text, i, r) == ReadFrom(table, text, i + |gap| + 1, next)
  {
    hide ReadFrom, IsBlank, AreTargets, IsTable;
    HasBoth(text, i, gap, ['"'] + rest);
    ReadBlank(table, text, i, r, gap);
    HasCons(text, i + |gap|, '"', rest);
    Next(table, text, i + |gap|, r);
    next := r.(phase := InAttr, attr := "");
  }

  lemma LongNameFault(table: seq<Attr>, text: string, i: nat, r: Reader, gap: string, most: string, last: char)
    requires i <= |text| && Ready(table, r) && r.phase.AwaitAttr? && IsBlank(gap)
    requires Has(text, i, gap + (['"'] + (most + [last]))) && |most| == 30 && '"' !in most && last != '"'
    ensures ReadFrom(table, text, i, r) == Outcome(4, r.fields)
  {
    hide ReadFrom, IsBlank, AreTargets, IsTable;
    var next := ReadQuote(table, text, i, r, gap, most + [last]);
    var j := i + |gap| + 1;
    HasBoth(text, j, most, [last]);
    ReadName(table, text, j, next, most);
    assert next.attr + most == most;
    HasHead(text, j + 30, [last]);
    Next(table, text, j + 30, next.(attr := most));
  }

  lemma UnknownNameFault(table: seq<Attr>, text: string, i: nat, r: Reader, gap: string, name: string)
    requires i <= |text| && Ready(table, r) && r.phase.AwaitAttr? && IsBlank(gap)
    requires Has(text, i, gap + (['"'] + (name + ['"']))) && |name| <= 30 && '"' !in name
    requires forall k :: 0 <= k < |table| ==> table[k].name != name
    ensures ReadFrom(table, text, i, r) == Outcome(3, r.fields)
  {
    hide ReadFrom, IsBlank, AreTargets, IsTable;
    var next := ReadQuote(table, text, i, r, gap, name + ['"']);
    var j := i + |gap| + 1;
    HasBoth(text, j, name, ['"']);
    ReadName(table, text, j, next, name);
    assert next.attr + name == name;
    HasHead(text, j + |name|, ['"']);
    Next(table, text, j + |name|, next.(attr := name));
  }

  // ---------- Values ----------

  lemma NestedFault(table: seq<Attr>, text: string, i: nat, r: Reader, open: char)
    requires i <= |text| && Ready(table, r) && r.phase.AwaitValue? && Has(text, i, [open])
    requires open == '[' || open == '{'
    ensures ReadFrom(table, text, i, r) == Outcome(5, r.fields)
  {
    hide ReadFrom, AreTargets, IsTable;
    HasHead(text, i, [open]);
    Next(table, text, i, r);
  }

  lemma BareIsToken(t: string)
    requires IsBare(t)
    ensures IsToken(t) && t != [] && t[0] != ':' && t[0] != '[' && t[0] != '{' && t[0] != '"'
  {
    hide IsSpace, IsWhite;
    forall c | c in t
      ensures !IsSpace(c)
    {
      WhiteIff(c);
    }
  }

  lemma LongTokenFault(table: seq<Attr>, text: string, i: nat, r: Reader, token: string)
    requires i <= |text| && Ready(table, r) && r.phase.AwaitValue? && Has(text, i, token)
    requires IsBare(token) && |token| == 513
    ensures ReadFrom(table, text, i, r) == Outcome(8, r.fields)
  {
    hide ReadFrom, AreTargets, IsTable, IsBare, IsSpace;
    BareIsToken(token);
    var most, last := token[..512], token[512];
    assert token == most + [last] && most[0] == token[0] && last in token;
    assert forall c :: c in most ==> c in token;
    HasBoth(text, i, most, [last]);
    var next := ThroughToken(table, text, i, r, most);
    HasHead(text, i + 512, [last]);
    Next(table, text, i + 512, next);
  }

  lemma BareTextFault(table: seq<Attr>, text: string, i: nat, r: Reader, token: string, end: char)
    requires i <= |text| && Ready(table, r) && r.phase.AwaitValue? && Has(text, i, token + [end])
    requires IsFlat(table) && table[r.cursor].kind.Text? && r.attr == table[r.cursor].name
    requires IsBare(token) && |token| <= 512 && (end == ',' || end == '}')
    ensures ReadFrom(table, text, i, r) == Outcome(20, r.fields)
  {
    hide ReadFrom, AreTargets, IsTable, IsBare, IsToken, CString;
    BareIsToken(token);
    HasBoth(text, i, token, [end]);
    var next := ThroughToken(table, text, i, r, token);
    var j := i + |token|;
    HasHead(text, j, [end]);
    Next(table, text, j, next);
    var ended := next.(phase := PostVal);
    SeekStays(table, r.cursor, false, CString(token));
    Next(table, text, j, ended);
  }

  lemma LongTextFault(table: seq<Attr>, text: string, i: nat, r: Reader, s: string, spelling: seq<string>)
    requires i <= |text| && Ready(table, r) && r.phase.AwaitValue? && Has(text, i, ['"'] + Body(spelling))
    requires AreReadable(spelling, s) && |s| > Limit(r.maxlen) >= 0
    ensures ReadFrom(table, text, i, r) == Outcome(7, r.fields)
  {
    hide ReadFrom, AreTargets, IsTable, AreReadable, Body;
    HasCons(text, i, '"', Body(spelling));
    Next(table, text, i, r);
    ReadBody(table, text, i + 1, r.(phase := InString, quoted := true, value := ""), s, spelling);
  }

  lemma QuotedFault(table: seq<Attr>, text: string, i: nat, r: Reader, s: string, spelling: seq<string>, end: char)
    requires i <= |text| && Ready(table, r) && r.phase.AwaitValue?
    requires Has(text, i, (['"'] + (Body(spelling) + ['"'])) + [end])
    requires IsFlat(table) && !table[r.cursor].kind.Text? && r.attr == table[r.cursor].name
    requires AreReadable(spelling, s) && |s| <= Limit(r.maxlen)
    ensures ReadFrom(table, text, i, r) == Outcome(19, r.fields)
  {
    hide ReadFrom, AreTargets, IsTable, AreReadable, Body, CString;
    HasBoth(text, i, ['"'] + (Body(spelling) + ['"']), [end]);
    var next := ThroughText(table, text, i, r, s, spelling);
    var j := i + |Body(spelling)| + 2;
    HasHead(text, j, [end]);
    SeekStays(table, r.cursor, true, CString(s));
    Next(table, text, j, next);
  }

  /** From the reverse solidus of a numbered escape that has too few digits. */
  lemma EscapeFails(table: seq<Attr>, text: string, i: nat, r: Reader, digits: string, end: char)
    requires i <= |text| && Ready(table, r) && r.phase.InString? && !IsFull(r)
    requires Has(text, i, ['\\'] + (['u'] + (digits + [end]))) && |digits| < 4 && !IsSomeDigit(end)
    ensures ReadFrom(table, text, i, r) == Outcome(15, r.fields)
  {
    hide ReadFrom, AreTargets, IsTable, IsSomeDigit, IsHex, Has;
    HasCons(text, i, '\\', ['u'] + (digits + [end]));
    Next(table, text, i, r);
    HasCons(text, i + 1, 'u', digits + [end]);
    Next(table, text, i + 1, r.(phase := InEscape));
    HasBoth(text, i + 2, digits, [end]);
    HasCons(text, i + 2 + |digits|, end, []);
    SomeDigitIff(end);
    assert !HasHex(text, i + 2);
  }

  lemma BadNumberFault(table: seq<Attr>, text: string, i: nat, r: Reader,
                       s: string, spelling: seq<string>, digits: string, end: char)
    requires i <= |text| && Ready(table, r) && r.phase.AwaitValue?
    requires Has(text, i, ['"'] + (Body(spelling) + (['\\'] + (['u'] + (digits + [end])))))
    requires AreReadable(spelling, s) && |s| < Limit(r.maxlen)
    requires |digits| < 4 && !IsSomeDigit(end)
    ensures ReadFrom(table, text, i, r) == Outcome(15, r.fields)
  {
    hide ReadFrom, AreTargets, IsTable, AreReadable, Body, IsSomeDigit, Has;
    var tail := ['\\'] + (['u'] + (digits + [end]));
    HasCons(text, i, '"', Body(spelling) + tail);
    Next(table, text, i, r);
    HasBoth(text, i + 1, Body(spelling), tail);
    var next := r.(phase := InString, quoted := true, value := "");
    ReadBody(table, text, i + 1, next, s, spelling);
    assert next.value + s == s;
    EscapeFails(table, text, i + 1 + |Body(spelling)|, next.(value := s), digits, end);
  }

  /** The value is right and stored, but neither a comma nor a brace follows it. */
  lemma TrailFault(table: seq<Attr>, text: string, i: nat, r: Reader, gap: string, c: char, kept: Field)
    requires i <= |text| && Ready(table, r) && r.phase.PostVal? && IsFlat(table) && IsBlank(gap)
    requires Has(text, i, gap + [c]) && !IsWhite(c) && c != ',' && c != '}'
    requires r.attr == table[r.cursor].name && r.quoted == table[r.cursor].kind.Text?
    requires Stored(table[r.cursor].kind, r.fields[r.cursor], CString(r.value)) == kept
    ensures ReadFrom(table, text, i, r) == Outcome(9, r.fields[r.cursor := kept])
  {
    hide ReadFrom, Seek, Stored, IsTarget, IsBlank, CString, IsWhite;
    HasBoth(text, i, gap, [c]);
    HasHead(text, i + |gap|, [c]);
    WhiteIff(c);
    SkipsGap(text, i, gap);
    SeekStays(table, r.cursor, r.quoted, CString(r.value));
    Next(table, text, i, r);
  }

  lemma TokenTrailFault(table: seq<Attr>, text: string, i: nat, r: Reader, gap: string, c: char, kept: Field)
    requires i <= |text| && Ready(table, r) && r.phase.InToken? && IsFlat(table) && IsBlank(gap) && gap != []
    requires Has(text, i, gap + [c]) && !IsWhite(c) && c != ',' && c != '}'
    requires r.attr == table[r.cursor].name && !r.quoted && !table[r.cursor].kind.Text?
    requires Stored(table[r.cursor].kind, r.fields[r.cursor], CString(r.value)) == kept
    ensures ReadFrom(table, text, i, r) == Outcome(9, r.fields[r.cursor := kept])
  {
    hide ReadFrom, Stored, IsTarget, CString, AreTargets, IsWhite;
    HasHead(text, i, gap + [c]);
    assert gap[0] in gap;
    WhiteIff(gap[0]);
    Next(table, text, i, r);
    assert (gap + [c])[1..] == gap[1..] + [c];
    TrailFault(table, text, i + 1, r.(phase := PostVal), gap[1..], c, kept);
  }

  lemma TextTrailFault(table: seq<Attr>, text: string, i: nat, r: Reader, s: string, spelling: seq<string>,
                       gap: string, c: char, kept: Field)
    requires i <= |text| && Ready(table, r) && r.phase.AwaitValue? && IsFlat(table) && IsBlank(gap)
    requires r.attr == table[r.cursor].name && table[r.cursor].kind.Text?
    requires '\0' !in s && AreReadable(spelling, s) && 0 <= |s| <= Limit(r.maxlen)
    requires Stored(table[r.cursor].kind, r.fields[r.cursor], s) == kept
    requires Has(text, i, (['"'] + (Body(spelling) + ['"'])) + (gap + [c])) && !IsWhite(c) && c != ',' && c != '}'
    ensures ReadFrom(table, text, i, r) == Outcome(9, r.fields[r.cursor := kept])
  {
    hide ReadFrom, Body, IsBlank, IsFlat, CString, AreReadable, IsWhite, Stored, IsTarget, Has;
    HasBoth(text, i, ['"'] + (Body(spelling) + ['"']), gap + [c]);
    var next := ThroughText(table, text, i, r, s, spelling);
    CStringOf(s);
    TrailFault(table, text, i + |Body(spelling)| + 2, next, gap, c, kept);
  }

  lemma BareTrailFault(table: seq<Attr>, text: string, i: nat, r: Reader, t: string,
                       gap: string, c: char, kept: Field)
    requires i <= |text| && Ready(table, r) && r.phase.AwaitValue? && IsFlat(table) && IsBlank(gap) && gap != []
    requires r.attr == table[r.cursor].name && !table[r.cursor].kind.Text?
    requires 0 < |t| <= 11 && IsToken(t) && '\0' !in t && t[0] != ':' && t[0] != '[' && t[0] != '{' && t[0] != '"'
    requires Stored(table[r.cursor].kind, r.fields[r.cursor], t) == kept
    requires Has(text, i, t + (gap + [c])) && !IsWhite(c) && c != ',' && c != '}'
    ensures ReadFrom(table, text, i, r) == Outcome(9, r.fields[r.cursor := kept])
  {
    hide ReadFrom, IsBlank, IsFlat, CString, IsWhite, Stored, IsTarget, Has, IsToken;
    HasBoth(text, i, t, gap + [c]);
    var next := ThroughToken(table, text, i, r, t);
    CStringOf(t);
    TokenTrailFault(table, text, i + |t|, next, gap, c, kept);
  }

  lemma ValueTrailFault(table: seq<Attr>, text: string, i: nat, r: Reader, value: Value, gap: string, c: char)
    requires i <= |text| && Ready(table, r) && r.phase.AwaitValue? && IsFlat(table) && IsBlank(gap)
    requires r.attr == table[r.cursor].name && HasType(table[r.cursor].kind, value)
    requires r.maxlen == MaxLen(table[r.cursor].kind, r.maxlen) && Fits(table[r.cursor].kind, value)
    requires Has(text, i, PrintValue(value) + (gap + [c])) && !IsWhite(c) && c != ',' && c != '}'
    requires gap == [] ==> value.TextValue?
    ensures ReadFrom(table, text, i, r) ==
            Outcome(9, r.fields[r.cursor := Kept(table[r.cursor].kind, r.fields[r.cursor], value)])
  {
    hide ReadFrom, Body, IsBlank, IsFlat, CString, Fitted, AreReadable, IsWhite, IsToken, Has;
    var kind := table[r.cursor].kind;
    var kept := Kept(kind, r.fields[r.cursor], value);
    if kind.Text? {
      TextTrailFault(table, text, i, r, value.s, value.spelling, gap, c, kept);
    } else {
      TokenOf(kind, value, r.fields[r.cursor]);
      BareTrailFault(table, text, i, r, PrintValue(value), gap, c, kept);
    }
  }

  // ---------- Whole configurations ----------

  /** A fault is found out where the text shows it. */
  lemma FaultStops(table: seq<Attr>, text: string, i: nat, r: Reader, f: Fault)
    requires i <= |text| && Ready(table, r) && r.phase.AwaitAttr? && IsFlat(table) && r.maxlen >= 0
    requires IsFault(table, r.maxlen, f) && Has(text, i, Shown(table, r.maxlen, f))
    ensures ReadFrom(table, text, i, r) == Outcome(Status(f), Left(table, r.maxlen, r.fields, f))
  {
    hide ReadFrom, IsBlank, IsBare, Body, AreReadable, PrintName, PrintValue, Kept, Has, IsWhite, Limit, IsTarget, Fits;
    match f
    case NoName(gap, c) => NameFaults(table, text, i, r, gap, c);
    case LongName(gap, name) =>
      assert name[30] in name && (forall c :: c in name[..30] ==> c in name);
      assert name == name[..30] + [name[30]];
      LongNameFault(table, text, i, r, gap, name[..30], name[30]);
    case UnknownName(gap, name) => UnknownNameFault(table, text, i, r, gap, name);
    case Nested(k, l, open) =>
      var next, at := NamedValue(table, text, i, r, k, l, [open]);
      NestedFault(table, text, at, next, open);
    case LongToken(k, l, token) =>
      var next, at := NamedValue(table, text, i, r, k, l, token);
      LongTokenFault(table, text, at, next, token);
    case BareText(k, l, token, end) =>
      var next, at := NamedValue(table, text, i, r, k, l, token + [end]);
      BareTextFault(table, text, at, next, token, end);
    case LongText(k, l, s, spelling) =>
      var next, at := NamedValue(table, text, i, r, k, l, ['"'] + Body(spelling));
      LimitIsPositive(next.maxlen);
      LongTextFault(table, text, at, next, s, spelling);
    case QuotedValue(k, l, s, spelling, end) =>
      var next, at := NamedValue(table, text, i, r, k, l, (['"'] + (Body(spelling) + ['"'])) + [end]);
      LimitIsPositive(next.maxlen);
      QuotedFault(table, text, at, next, s, spelling, end);
    case BadNumber(k, l, s, spelling, digits, end) =>
      var next, at := NamedValue(table, text, i, r, k, l,
                                 ['"'] + (Body(spelling) + (['\\'] + (['u'] + (digits + [end])))));
      BadNumberFault(table, text, at, next, s, spelling, digits, end);
    case NoComma(item, c) =>
      var end := item.layout.afterValue + [c];
      assert PrintItem(table, item) + [c] ==
             PrintName(item.layout, table[item.attr].name) + (PrintValue(item.value) + end);
      var next, at := NamedValue(table, text, i, r, item.attr, item.layout, PrintValue(item.value) + end);
      ValueTrailFault(table, text, at, next, item.value, item.layout.afterValue, c);
  }

  lemma LimitIsPositive(maxlen: int)
    ensures maxlen >= 0 ==> Limit(maxlen) >= 0
  {}

  /** Up to the value of an attribute of the table. */
  lemma NamedValue(table: seq<Attr>, text: string, i: nat, r: Reader, k: nat, l: Layout, shown: string)
    returns (next: Reader, at: nat)
    requires i <= |text| && Ready(table, r) && r.phase.AwaitAttr? && IsFlat(table) && r.maxlen >= 0
    requires k < |table| && IsLayout(l) && Has(text, i, PrintName(l, table[k].name) + shown)
    ensures at <= |text| && Has(text, at, shown) && Ready(table, next)
    ensures next == r.(phase := AwaitValue, attr := table[k].name, value := "", cursor := k,
                       maxlen := MaxLen(table[k].kind, r.maxlen))
    ensures next.maxlen >= 0
    ensures ReadFrom(table, text, i, r) == ReadFrom(table, text, at, next)
  {
    hide ReadFrom, IsLayout, PrintName, AreTargets;
    HasBoth(text, i, PrintName(l, table[k].name), shown);
    next := ReadAttr(table, text, i, r, k, l);
    at := i + |PrintName(l, table[k].name)|;
  }

  /** Items, each with a comma behind it. */
  function PrintOpen(table: seq<Attr>, items: seq<Item>): string
    requires AreItems(table, items)
  {
    if items == [] then "" else (PrintItem(table, items[0]) + [',']) + PrintOpen(table, items[1..])
  }

  lemma {:induction false} ReadOpen(table: seq<Attr>, text: string, i: nat, r: Reader, items: seq<Item>)
    returns (next: Reader)
    requires i <= |text| && Ready(table, r) && r.phase.AwaitAttr? && IsFlat(table)
    requires AreItems(table, items) && AllFit(table, items) && Has(text, i, PrintOpen(table, items))
    ensures i + |PrintOpen(table, items)| <= |text|
    ensures Ready(table, next) && next.phase.AwaitAttr?
    ensures next.fields == KeptAll(table, r.fields, items) && next.maxlen == MaxLenAfter(table, r.maxlen, items)
    ensures ReadFrom(table, text, i, r) == ReadFrom(table, text, i + |PrintOpen(table, items)|, next)
    decreases |items|
  {
    hide ReadFrom, PrintItem, Fits, Kept, IsFlat;
    if items == [] {
      next := r;
    } else {
      HasBoth(text, i, PrintItem(table, items[0]) + [','], PrintOpen(table, items[1..]));
      AllFitRest(table, items);
      next := ReadItem(table, text, i, r, items[0], ',');
      next := ReadOpen(table, text, i + |PrintItem(table, items[0])| + 1, next, items[1..]);
    }
  }

  lemma {:induction false} MaxLenIsPositive(table: seq<Attr>, maxlen: int, items: seq<Item>)
    requires IsTable(table) && AreItems(table, items) && maxlen >= 0
    ensures MaxLenAfter(table, maxlen, items) >= 0
    decreases |items|
  {
    if items != [] {
      MaxLenIsPositive(table, MaxLen(table[items[0].attr].kind, maxlen), items[1..]);
    }
  }

  /** Up to behind the opening brace. */
  lemma ReadBrace(table: seq<Attr>, fields: seq<Field>, lead: string, shown: string) returns (text: string, r: Reader)
    requires IsTable(table) && AreTargets(table, fields) && IsBlank(lead)
    ensures text == lead + (['{'] + shown) && r == Start(table, fields).(phase := AwaitAttr)
    ensures Ready(table, r) && Has(text, |lead| + 1, shown) && |lead| + 1 <= |text|
    ensures Read(table, text, fields) == ReadFrom(table, text, |lead| + 1, r)
  {
    hide ReadFrom, Defaults, IsBlank, AreTargets, IsTable;
    text, r := lead + (['{'] + shown), Start(table, fields);
    assert Has(text, 0, text);
    HasBoth(text, 0, lead, ['{'] + shown);
    ReadBlank(table, text, 0, r, lead);
    HasCons(text, |lead|, '{', shown);
    Next(table, text, |lead|, r);
    r := r.(phase := AwaitAttr);
  }

  /**
   The first fault decides: after any items that are right, the status is the one
   that belongs to the fault, whatever follows it, and the targets hold the items
   before it.
   */
  lemma FaultIsReported(table: seq<Attr>, fields: seq<Field>, lead: string, items: seq<Item>, f: Fault, rest: string)
    requires IsFlat(table) && AreTargets(table, fields) && AreItems(table, items) && AllFit(table, items)
    requires IsBlank(lead) && IsFault(table, MaxLenAfter(table, 0, items), f)
    ensures var maxlen := MaxLenAfter(table, 0, items);
            Read(table, lead + (['{'] + (PrintOpen(table, items) + (Shown(table, maxlen, f) + rest))), fields) ==
            Outcome(Status(f), Left(table, maxlen, KeptAll(table, Defaults(table, fields), items), f))
  {
    hide ReadFrom, Read, Defaults, KeptAll, AllFit, PrintOpen, IsBlank, AreTargets, Shown, IsFault, Left, Status, Has;
    var maxlen := MaxLenAfter(table, 0, items);
    var shown := PrintOpen(table, items) + (Shown(table, maxlen, f) + rest);
    var text, r := ReadBrace(table, fields, lead, shown);
    var at := |lead| + 1;
    HasBoth(text, at, PrintOpen(table, items), Shown(table, maxlen, f) + rest);
    var next := ReadOpen(table, text, at, r, items);
    HasBoth(text, at + |PrintOpen(table, items)|, Shown(table, maxlen, f), rest);
    MaxLenIsPositive(table, 0, items);
    FaultStops(table, text, at + |PrintOpen(table, items)|, next, f);
  }

  /** A text that begins with something else than an object, or with nothing. */
  lemma NoObjectIsReported(table: seq<Attr>, fields: seq<Field>, lead: string, c: char, rest: string)
    requires IsTable(table) && AreTargets(table, fields) && IsBlank(lead) && !IsWhite(c) && c != '{'
    ensures Read(table, lead + ([c] + rest), fields) == Outcome(1, Defaults(table, fields))
    ensures Read(table, lead, fields) == Outcome(25, Defaults(table, fields))
  {
    hide ReadFrom, Defaults, IsBlank, AreTargets, IsTable, IsWhite;
    var text, r := lead + ([c] + rest), Start(table, fields);
    assert Has(text, 0, text) && Has(lead, 0, lead);
    HasBoth(text, 0, lead, [c] + rest);
    ReadBlank(table, text, 0, r, lead);
    HasCons(text, |lead|, c, rest);
    WhiteIff(c);
    Next(table, text, |lead|, r);
    ReadBlank(table, lead, 0, r, lead);
    AtEnd(table, lead, r);
  }

  /** What stands behind the closing brace is not looked at. */
  lemma TextBehindIsIgnored(table: seq<Attr>, fields: seq<Field>, lead: string, items: seq<Item>, rest: string)
    requires IsFlat(table) && AreTargets(table, fields) && AreItems(table, items) && AllFit(table, items)
    requires IsBlank(lead) && items != []
    ensures Read(table, Print(table, lead, items) + rest, fields) ==
            Outcome(0, KeptAll(table, Defaults(table, fields), items))
  {
    hide ReadFrom, Read, Defaults, KeptAll, AllFit, PrintItems, PrintOpen, IsBlank, AreTargets, PrintItem, Has, Kept;
    var init, last := items[..|items| - 1], items[|items| - 1];
    ItemsAreOpen(table, items);
    var shown := PrintOpen(table, init) + ((PrintItem(table, last) + ['}']) + rest);
    var text, r := ReadBrace(table, fields, lead, shown);
    assert Print(table, lead, items) + rest == text;
    var at := |lead| + 1;
    HasBoth(text, at, PrintOpen(table, init), (PrintItem(table, last) + ['}']) + rest);
    FitsLast(table, items);
    var next := ReadOpen(table, text, at, r, init);
    HasBoth(text, at + |PrintOpen(table, init)|, PrintItem(table, last) + ['}'], rest);
    var _ := ReadItem(table, text, at + |PrintOpen(table, init)|, next, last, '}');
    KeptLast(table, Defaults(table, fields), items);
  }

  lemma FitsLast(table: seq<Attr>, items: seq<Item>)
    requires AreItems(table, items) && AllFit(table, items) && items != []
    ensures AreItems(table, items[..|items| - 1]) && AllFit(table, items[..|items| - 1])
    ensures IsItem(table, items[|items| - 1])
    ensures Fits(table[items[|items| - 1].attr].kind, items[|items| - 1].value)
  {
    hide Fits, IsItem;
  }

  lemma Joins(a: string, b: string, c: string)
    ensures (a + b) + c == a + (b + c)
  {}

  lemma {:induction false} ItemsAreOpen(table: seq<Attr>, items: seq<Item>)
    requires AreItems(table, items) && items != []
    ensures var init, last := items[..|items| - 1], items[|items| - 1];
            PrintItems(table, items) == PrintOpen(table, init) + (PrintItem(table, last) + ['}'])
    decreases |items|
  {
    hide PrintItem;
    var init, last := items[..|items| - 1], items[|items| - 1];
    var end := PrintItem(table, last) + ['}'];
    if |items| == 1 {
      NothingPrinted(table, items[1..]);
      assert PrintOpen(table, init) == "";
      assert PrintItems(table, items) == end;
    } else {
      ItemsAreOpen(table, items[1..]);
      assert items[1..][..|items| - 2] == init[1..] && init[0] == items[0];
      Joins(PrintItem(table, items[0]) + [','], PrintOpen(table, init[1..]), end);
    }
  }

  lemma {:induction false} KeptLast(table: seq<Attr>, fields: seq<Field>, items: seq<Item>)
    requires IsTable(table) && AreTargets(table, fields) && AreItems(table, items) && items != []
    ensures var init, last := items[..|items| - 1], items[|items| - 1];
            var before := KeptAll(table, fields, init);
            KeptAll(table, fields, items) ==
            before[last.attr := Kept(table[last.attr].kind, before[last.attr], last.value)]
    decreases |items|
  {
    hide Kept;
    if |items| > 1 {
      var k := items[0].attr;
      KeptLast(table, fields[k := Kept(table[k].kind, fields[k], items[0].value)], items[1..]);
      assert items[1..][..|items| - 2] == items[..|items| - 1][1..];
    }
  }
}
