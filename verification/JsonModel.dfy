/**
 mjson's reader for flat objects of integers, booleans and strings, as a step
 function on values: one step is one round of the reader's loop, from one
 position of its cursor to the next.  The text is what stands before the NUL.
 */
module JsonModel {
  const JSON_ATTR_MAX := 31
  const JSON_VAL_MAX := 512

  const ERR_OBSTART := 1
  const ERR_ATTRSTART := 2
  const ERR_BADATTR := 3
  const ERR_ATTRLEN := 4
  const ERR_NOARRAY := 5
  const ERR_STRLONG := 7
  const ERR_TOKLONG := 8
  const ERR_BADTRAIL := 9
  const ERR_BADSTRING := 15
  const ERR_QNONSTRING := 19
  const ERR_NONQSTRING := 20
  const ERR_EMPTY := 25

  datatype Kind = Integer | Boolean | Text(len: nat)

  datatype Attr = Attr(name: string, kind: Kind)

  /** The memory of a target; that of a string is as long as the table says. */
  datatype Field = Number(n: int) | Truth(b: bool) | Memory(chars: string)

  datatype Phase = Init | AwaitAttr | InAttr | AwaitValue | InString | InEscape | InToken | PostVal

  /** The reader's variables: its state, what attrbuf and valbuf have collected, and the targets. */
  datatype Reader = Reader(
    phase: Phase, attr: string, value: string, quoted: bool, cursor: nat, maxlen: int, fields: seq<Field>)

  datatype Stepped = Go(cp: nat, next: Reader) | Stop(status: nat, fields: seq<Field>)

  datatype Outcome = Outcome(status: nat, fields: seq<Field>)

  // ---------- Characters ----------

  predicate IsSpace(c: char) {
    c == ' ' || 9 <= c as int <= 13
  }

  predicate IsDigit(c: char) {
    0 <= HexDigit(c) <= 9
  }

  function HexDigit(c: char): (d: int)
    ensures d < 16
  {
    if '0' <= c <= '9' then c as int - '0' as int
    else if 'a' <= c <= 'f' then c as int - 'a' as int + 10
    else if 'A' <= c <= 'F' then c as int - 'A' as int + 10
    else -1
  }

  predicate IsHex(c: char) {
    HexDigit(c) >= 0
  }

  function SkipSpaces(text: string, i: nat): (k: nat)
    requires i <= |text|
    ensures i <= k <= |text|
    ensures forall m :: i <= m < k ==> IsSpace(text[m])
    ensures k < |text| ==> !IsSpace(text[k])
    decreases |text| - i
  {
    if i < |text| && IsSpace(text[i]) then SkipSpaces(text, i + 1) else i
  }

  /** A character array read as a C string. */
  function CString(chars: string): (s: string)
    ensures s <= chars && '\0' !in s
    ensures |s| < |chars| ==> chars[|s|] == '\0'
  {
    if chars == [] || chars[0] == '\0' then [] else [chars[0]] + CString(chars[1..])
  }

  // ---------- Numbers ----------

  function DecimalRun(s: string, acc: nat): nat {
    if s != [] && IsDigit(s[0]) then DecimalRun(s[1..], 10 * acc + HexDigit(s[0])) else acc
  }

  function Unsigned(s: string): string {
    if s != [] && (s[0] == '-' || s[0] == '+') then s[1..] else s
  }

  /** To a 64-bit long, at its limits, and then to the low 32 bits. */
  function ToInt(n: int): int {
    var long := if n < -0x8000_0000_0000_0000 then -0x8000_0000_0000_0000
                else if n > 0x7fff_ffff_ffff_ffff then 0x7fff_ffff_ffff_ffff else n;
    (long + 0x8000_0000) % 0x1_0000_0000 - 0x8000_0000
  }

  /** atoi of a token, which holds no white space. */
  function Atoi(s: string): int {
    var n: int := DecimalRun(Unsigned(s), 0);
    ToInt(if s != [] && s[0] == '-' then -n else n)
  }

  predicate HasNonzeroDigit(s: string, base: int) {
    s != [] && 0 <= HexDigit(s[0]) < base && (s[0] != '0' || HasNonzeroDigit(s[1..], base))
  }

  /** Whether strtol with base 0 gives a number other than zero. */
  predicate IsNonzero(s: string) {
    var t := Unsigned(s);
    if |t| >= 3 && t[0] == '0' && (t[1] == 'x' || t[1] == 'X') && IsHex(t[2]) then HasNonzeroDigit(t[2..], 16)
    else if t != [] && t[0] == '0' then HasNonzeroDigit(t, 8)
    else HasNonzeroDigit(t, 10)
  }

  // ---------- Tables and targets ----------

  predicate IsTable(table: seq<Attr>) {
    forall k :: 0 <= k < |table| ==> table[k].kind.Text? ==> table[k].kind.len >= 1
  }

  predicate IsTarget(kind: Kind, field: Field) {
    match kind
    case Integer => field.Number?
    case Boolean => field.Truth?
    case Text(len) => field.Memory? && |field.chars| == len
  }

  predicate AreTargets(table: seq<Attr>, fields: seq<Field>) {
    |fields| == |table| && forall k :: 0 <= k < |table| ==> IsTarget(table[k].kind, fields[k])
  }

  /** All defaults of a flat table are zero; of a string only the first character is set. */
  function Default(kind: Kind, field: Field): Field
    requires IsTarget(kind, field) && (kind.Text? ==> kind.len >= 1)
  {
    match kind
    case Integer => Number(0)
    case Boolean => Truth(false)
    case Text(_) => Memory(field.chars[0 := '\0'])
  }

  function Defaults(table: seq<Attr>, fields: seq<Field>): (d: seq<Field>)
    requires IsTable(table) && AreTargets(table, fields)
    ensures AreTargets(table, d)
  {
    seq(|table|, k requires 0 <= k < |table| => Default(table[k].kind, fields[k]))
  }

  /** The first attribute of that name from k on. */
  function Find(table: seq<Attr>, name: string, k: nat): (found: nat)
    requires k <= |table|
    ensures k <= found <= |table|
    ensures found < |table| ==> table[found].name == name
    ensures forall m :: k <= m < found ==> table[m].name != name
    decreases |table| - k
  {
    if k < |table| && table[k].name != name then Find(table, name, k + 1) else k
  }

  predicate Matches(kind: Kind, quoted: bool, value: string) {
    || (quoted && kind.Text?)
    || ((value == "true" || value == "false" || (value != [] && IsDigit(value[0]))) && kind.Boolean?)
    || (value != [] && IsDigit(value[0]) && '.' !in value && kind.Integer?)
  }

  /** Adjacent entries may share a name: seek forward for one whose type fits. */
  function Seek(table: seq<Attr>, cursor: nat, name: string, quoted: bool, value: string): (found: nat)
    requires cursor < |table|
    ensures found < |table|
    decreases |table| - cursor
  {
    if Matches(table[cursor].kind, quoted, value) || cursor + 1 == |table| || table[cursor + 1].name != name
    then cursor
    else Seek(table, cursor + 1, name, quoted, value)
  }

  function Zeros(n: nat): string {
    seq(n, _ => '\0')
  }

  /** A string cut or filled with NULs to this length. */
  function Fitted(value: string, length: nat): (s: string)
    ensures |s| == length
  {
    if |value| < length then value + Zeros(length - |value|) else value[..length]
  }

  function Stored(kind: Kind, field: Field, value: string): (f: Field)
    requires IsTarget(kind, field) && (kind.Text? ==> kind.len >= 1)
    ensures IsTarget(kind, f)
  {
    match kind
    case Integer => Number(Atoi(value))
    case Boolean => Truth(value == "true" || IsNonzero(value))
    case Text(len) => Memory(Fitted(value, len - 1) + field.chars[len - 1..])
  }

  // ---------- The steps ----------

  predicate HasCursor(phase: Phase) {
    phase.AwaitValue? || phase.InString? || phase.InEscape? || phase.InToken? || phase.PostVal?
  }

  /** Nothing collected is longer than its buffer allows, and every target keeps its type and size. */
  predicate Ready(table: seq<Attr>, r: Reader) {
    && IsTable(table)
    && AreTargets(table, r.fields)
    && |r.attr| <= JSON_ATTR_MAX - 1
    && |r.value| <= JSON_VAL_MAX
    && (HasCursor(r.phase) ==> r.cursor < |table|)
  }

  function OnInit(c: char, i: nat, r: Reader): Stepped {
    if IsSpace(c) then Go(i + 1, r)
    else if c == '{' then Go(i + 1, r.(phase := AwaitAttr))
    else Stop(ERR_OBSTART, r.fields)
  }

  /** A closing brace is passed over here: the reader goes on waiting for an attribute. */
  function OnAwaitAttr(c: char, i: nat, r: Reader): Stepped {
    if IsSpace(c) || c == '}' then Go(i + 1, r)
    else if c == '"' then Go(i + 1, r.(phase := InAttr, attr := ""))
    else Stop(ERR_ATTRSTART, r.fields)
  }

  function OnInAttr(table: seq<Attr>, c: char, i: nat, r: Reader): Stepped {
    if c == '"' then
      var cursor := Find(table, r.attr, 0);
      if cursor == |table| then Stop(ERR_BADATTR, r.fields)
      else
        var kind := table[cursor].kind;
        Go(i + 1, r.(phase := AwaitValue, cursor := cursor, value := "",
                     maxlen := if kind.Text? then kind.len - 1 else r.maxlen))
    else if |r.attr| >= JSON_ATTR_MAX - 1 then Stop(ERR_ATTRLEN, r.fields)
    else Go(i + 1, r.(attr := r.attr + [c]))
  }

  function OnAwaitValue(c: char, i: nat, r: Reader): Stepped {
    if IsSpace(c) || c == ':' then Go(i + 1, r)
    else if c == '[' || c == '{' then Stop(ERR_NOARRAY, r.fields)
    else if c == '"' then Go(i + 1, r.(phase := InString, quoted := true, value := ""))
    else Go(i + 1, r.(phase := InToken, quoted := false, value := [c]))
  }

  predicate IsFull(r: Reader) {
    |r.value| > JSON_VAL_MAX - 1 || |r.value| > r.maxlen
  }

  function OnInString(c: char, i: nat, r: Reader): Stepped {
    if c == '\\' then Go(i + 1, r.(phase := InEscape))
    else if c == '"' then Go(i + 1, r.(phase := PostVal))
    else if IsFull(r) then Stop(ERR_STRLONG, r.fields)
    else Go(i + 1, r.(value := r.value + [c]))
  }

  function Unescaped(c: char): char {
    match c
    case 'b' => 8 as char
    case 'f' => 12 as char
    case 'n' => '\n'
    case 'r' => '\r'
    case 't' => '\t'
    case _ => c
  }

  /** Four hexadecimal digits from i on. */
  predicate HasHex(text: string, i: nat) {
    i + 4 <= |text| && IsHex(text[i]) && IsHex(text[i + 1]) && IsHex(text[i + 2]) && IsHex(text[i + 3])
  }

  /** The low byte of four hexadecimal digits. */
  function HexByte(text: string, i: nat): char
    requires HasHex(text, i)
  {
    (16 * HexDigit(text[i + 2]) + HexDigit(text[i + 3])) as char
  }

  function OnInEscape(text: string, i: nat, r: Reader): Stepped
    requires i < |text|
  {
    if IsFull(r) then Stop(ERR_STRLONG, r.fields)
    else if text[i] != 'u' then Go(i + 1, r.(phase := InString, value := r.value + [Unescaped(text[i])]))
    else if !HasHex(text, i + 1) then Stop(ERR_BADSTRING, r.fields)
    else Go(i + 5, r.(phase := InString, value := r.value + [HexByte(text, i + 1)]))
  }

  /** The character that ends a token is looked at again, unless it is white space. */
  function OnInToken(c: char, i: nat, r: Reader): Stepped {
    if IsSpace(c) then Go(i + 1, r.(phase := PostVal))
    else if c == ',' || c == '}' then Go(i, r.(phase := PostVal))
    else if |r.value| > JSON_VAL_MAX - 1 then Stop(ERR_TOKLONG, r.fields)
    else Go(i + 1, r.(value := r.value + [c]))
  }

  /** Where the value belongs, or which type error it is. */
  function StoreError(kind: Kind, quoted: bool): nat {
    if quoted && !kind.Text? then ERR_QNONSTRING
    else if !quoted && kind.Text? then ERR_NONQSTRING
    else 0
  }

  function OnPostVal(table: seq<Attr>, text: string, i: nat, r: Reader): Stepped
    requires i < |text| && Ready(table, r) && r.phase.PostVal?
  {
    var k := SkipSpaces(text, i);
    var value := CString(r.value);
    var cursor := Seek(table, r.cursor, r.attr, r.quoted, value);
    var kind := table[cursor].kind;
    var error := StoreError(kind, r.quoted);
    if error != 0 then Stop(error, r.fields) else
      var fields := r.fields[cursor := Stored(kind, r.fields[cursor], value)];
      if k < |text| && text[k] == ',' then Go(k + 1, r.(phase := AwaitAttr, cursor := cursor, fields := fields))
      else if k < |text| && text[k] == '}' then Stop(0, fields)
      else Stop(ERR_BADTRAIL, fields)
  }

  /** Tokens un-read their terminator, so a step may stay where it is, but not twice. */
  function Rank(text: string, i: nat, r: Reader): int {
    2 * (|text| - i) + if r.phase.InToken? then 1 else 0
  }

  function Step(table: seq<Attr>, text: string, i: nat, r: Reader): (s: Stepped)
    requires i < |text| && Ready(table, r)
    ensures s.Go? ==> i <= s.cp <= |text| && Rank(text, s.cp, s.next) < Rank(text, i, r)
    ensures s.Go? ==> Ready(table, s.next)
    ensures s.Stop? ==> AreTargets(table, s.fields)
  {
    match r.phase
    case Init => OnInit(text[i], i, r)
    case AwaitAttr => OnAwaitAttr(text[i], i, r)
    case InAttr => OnInAttr(table, text[i], i, r)
    case AwaitValue => OnAwaitValue(text[i], i, r)
    case InString => OnInString(text[i], i, r)
    case InEscape => OnInEscape(text, i, r)
    case InToken => OnInToken(text[i], i, r)
    case PostVal => OnPostVal(table, text, i, r)
  }

  function ReadFrom(table: seq<Attr>, text: string, i: nat, r: Reader): (o: Outcome)
    requires i <= |text| && Ready(table, r)
    ensures AreTargets(table, o.fields)
    decreases Rank(text, i, r)
  {
    if i == |text| then Outcome(if r.phase.Init? then ERR_EMPTY else 0, r.fields)
    else
      match Step(table, text, i, r)
      case Go(cp, next) => ReadFrom(table, text, cp, next)
      case Stop(status, fields) => Outcome(status, fields)
  }

  function Start(table: seq<Attr>, fields: seq<Field>): (r: Reader)
    requires IsTable(table) && AreTargets(table, fields)
    ensures Ready(table, r)
  {
    Reader(Init, "", "", false, 0, 0, Defaults(table, fields))
  }

  function Read(table: seq<Attr>, text: string, fields: seq<Field>): (o: Outcome)
    requires IsTable(table) && AreTargets(table, fields)
    ensures AreTargets(table, o.fields)
  {
    ReadFrom(table, text, 0, Start(table, fields))
  }

  lemma Next(table: seq<Attr>, text: string, i: nat, r: Reader)
    requires i < |text| && Ready(table, r)
    ensures var s := Step(table, text, i, r);
            ReadFrom(table, text, i, r) ==
            if s.Go? then ReadFrom(table, text, s.cp, s.next) else Outcome(s.status, s.fields)
  {
    hide Step, Ready;
  }

  lemma AtEnd(table: seq<Attr>, text: string, r: Reader)
    requires Ready(table, r)
    ensures ReadFrom(table, text, |text|, r) == Outcome(if r.phase.Init? then ERR_EMPTY else 0, r.fields)
  {}

  // ---------- Nothing outside the targets ----------

  /** The last byte of a string's memory. */
  function LastByte(field: Field): char
    requires field.Memory? && field.chars != []
  {
    field.chars[|field.chars| - 1]
  }

  lemma StepKeepsLastByte(table: seq<Attr>, text: string, i: nat, r: Reader, k: nat)
    requires i < |text| && Ready(table, r) && k < |table| && table[k].kind.Text?
    ensures var s := Step(table, text, i, r);
            var fields := if s.Go? then s.next.fields else s.fields;
            IsTarget(table[k].kind, fields[k]) && LastByte(fields[k]) == LastByte(r.fields[k])
  {
    hide IsSpace, HasHex, Seek, Find, Matches, CString, IsFull, Stored, OnPostVal, HexByte, Unescaped;
    TargetsKeepType(table, r.fields, k);
    if r.phase.PostVal? {
      PostValKeepsLastByte(table, text, i, r, k);
    }
  }

  lemma TargetsKeepType(table: seq<Attr>, fields: seq<Field>, k: nat)
    requires AreTargets(table, fields) && k < |table|
    ensures IsTarget(table[k].kind, fields[k])
  {}

  lemma PostValKeepsLastByte(table: seq<Attr>, text: string, i: nat, r: Reader, k: nat)
    requires i < |text| && Ready(table, r) && r.phase.PostVal? && k < |table| && table[k].kind.Text?
    ensures var s := OnPostVal(table, text, i, r);
            var fields := if s.Go? then s.next.fields else s.fields;
            |fields| == |table| && IsTarget(table[k].kind, fields[k]) && LastByte(fields[k]) == LastByte(r.fields[k])
  {
    hide IsSpace, Seek, Matches, CString, Stored, SkipSpaces;
    StoredKeepsLastByte(table[k].kind, r.fields[k], CString(r.value));
  }

  lemma StoredKeepsLastByte(kind: Kind, field: Field, value: string)
    requires IsTarget(kind, field) && kind.Text? && kind.len >= 1
    ensures LastByte(Stored(kind, field, value)) == LastByte(field)
  {}

  lemma {:induction false} ReadFromKeepsLastByte(table: seq<Attr>, text: string, i: nat, r: Reader, k: nat)
    requires i <= |text| && Ready(table, r) && k < |table| && table[k].kind.Text?
    ensures LastByte(ReadFrom(table, text, i, r).fields[k]) == LastByte(r.fields[k])
    decreases Rank(text, i, r)
  {
    hide Step;
    if i < |text| {
      StepKeepsLastByte(table, text, i, r, k);
      var s := Step(table, text, i, r);
      if s.Go? {
        ReadFromKeepsLastByte(table, text, s.cp, s.next, k);
      }
    }
  }

  /** On every text the last byte of a string target is left alone: only the first len - 1 are written. */
  lemma LastByteIsKept(table: seq<Attr>, text: string, fields: seq<Field>, k: nat)
    requires IsTable(table) && AreTargets(table, fields)
    requires k < |table| && table[k].kind.Text? && table[k].kind.len >= 2
    ensures LastByte(Read(table, text, fields).fields[k]) == LastByte(fields[k])
  {
    hide ReadFrom;
    ReadFromKeepsLastByte(table, text, 0, Start(table, fields), k);
  }
}
