/** InputArguments: the program's parameters, read from a flat JSON object. */
module InputArguments {
  import opened JsonModel
  import opened JsonReader
  import opened JsonRoundTrip
  import opened JsonTruncation

  const SHM_NAME_LENGTH := 256
  const IFNAMSIZ := 16
  const INET_ADDRSTRLEN := 16
  const LOGNAMSIZ := 256

  /** The attribute table that ReadParameters sets up. */
  const ARGUMENTS: seq<Attr> := [
    Attr("core_id", Integer),
    Attr("shm_name", Text(SHM_NAME_LENGTH)),
    Attr("iface", Text(IFNAMSIZ)),
    Attr("verbose", Boolean),
    Attr("port", Integer),
    Attr("ip_multicast", Text(INET_ADDRSTRLEN)),
    Attr("dump_pkt", Boolean),
    Attr("dump_hex", Boolean),
    Attr("log_name", Text(LOGNAMSIZ)),
    Attr("log_level", Integer)
  ]

  const DUMP_PKT := 6
  const DUMP_HEX := 7

  lemma ArgumentsAreFlat()
    ensures IsFlat(ARGUMENTS)
  {
    hide IsName;
    NamesCanBeWritten();
    NamesDiffer();
  }

  lemma NamesCanBeWritten()
    ensures forall k :: 0 <= k < |ARGUMENTS| ==> IsName(ARGUMENTS[k].name)
  {}

  /** Names of the same length differ in some character. */
  lemma NamesDiffer()
    ensures forall j, k :: 0 <= j < k < |ARGUMENTS| ==> ARGUMENTS[j].name != ARGUMENTS[k].name
  {
    forall j, k | 0 <= j < k < |ARGUMENTS|
      ensures ARGUMENTS[j].name != ARGUMENTS[k].name
    {
      var a, b := ARGUMENTS[j].name, ARGUMENTS[k].name;
      assert |a| != |b| || a[0] != b[0] || a[5] != b[5];
    }
  }

  /** The parameters by position, name and kind. */
  predicate IsParameter(k: nat, name: string, kind: Kind) {
    || (k == 0 && name == "core_id" && kind == Integer)
    || (k == 1 && name == "shm_name" && kind == Text(256))
    || (k == 2 && name == "iface" && kind == Text(16))
    || (k == 3 && name == "verbose" && kind == Boolean)
    || (k == 4 && name == "port" && kind == Integer)
    || (k == 5 && name == "ip_multicast" && kind == Text(16))
    || (k == 6 && name == "dump_pkt" && kind == Boolean)
    || (k == 7 && name == "dump_hex" && kind == Boolean)
    || (k == 8 && name == "log_name" && kind == Text(256))
    || (k == 9 && name == "log_level" && kind == Integer)
  }

  lemma ArgumentsAreParameters(k: nat, name: string, kind: Kind)
    ensures k < |ARGUMENTS| && ARGUMENTS[k] == Attr(name, kind) <==> IsParameter(k, name, kind)
  {
    assert k < |ARGUMENTS| ==> k == 0 || k == 1 || k == 2 || k == 3 || k == 4 || k == 5 || k == 6 || k == 7
                               || k == 8 || k == 9;
  }

  /** The two dumps exclude each other, and hexadecimal wins; nothing else changes. */
  function Resolved(fields: seq<Field>): (f: seq<Field>)
    requires AreTargets(ARGUMENTS, fields)
    ensures AreTargets(ARGUMENTS, f)
    ensures |f| == 10 && f[6].Truth? && f[7].Truth? && fields[6].Truth? && fields[7].Truth?
    ensures forall k :: 0 <= k < 10 && k != 6 ==> f[k] == fields[k]
    ensures f[6].b <==> fields[6].b && !fields[7].b
  {
    assert IsTarget(ARGUMENTS[DUMP_PKT].kind, fields[DUMP_PKT]) && IsTarget(ARGUMENTS[DUMP_HEX].kind, fields[DUMP_HEX]);
    fields[DUMP_PKT := Truth(!fields[DUMP_HEX].b && fields[DUMP_PKT].b)]
  }

  class InputArguments {
    const targets: array<Field>

    constructor (targets: array<Field>)
      ensures this.targets == targets
    {
      this.targets := targets;
    }

    /** The parameters a text gives, and the defaults for those that it omits. */
    method ReadParameters(json: string) returns (status: nat)
      requires AreTargets(ARGUMENTS, targets[..])
      modifies targets
      ensures var o := Read(ARGUMENTS, json, old(targets[..]));
              status == o.status && targets[..] == Resolved(o.fields)
    {
      hide Read, IsFlat, AreTargets;
      ArgumentsAreTable();
      var reader := new JsonReader(ARGUMENTS, targets);
      status := reader.ReadObject(json);
      ArgumentsAreSized(targets[..]);
      targets[DUMP_PKT] := Truth(if targets[DUMP_HEX].b then false else targets[DUMP_PKT].b);
    }
  }

  lemma ArgumentsAreTable()
    ensures IsTable(ARGUMENTS)
  {}

  lemma ArgumentsAreSized(fields: seq<Field>)
    requires AreTargets(ARGUMENTS, fields)
    ensures |fields| == 10 && fields[DUMP_PKT].Truth? && fields[DUMP_HEX].Truth?
  {
    assert IsTarget(ARGUMENTS[DUMP_PKT].kind, fields[DUMP_PKT]) && IsTarget(ARGUMENTS[DUMP_HEX].kind, fields[DUMP_HEX]);
  }

  // ---------- What the program gets to know ----------

  /** The configuration asks for this switch. */
  predicate Asks(items: seq<Item>, k: nat) {
    exists m :: 0 <= m < |items| && items[m].attr == k && IsTrue(items[m].value)
  }

  predicate IsTrue(value: Value) {
    match value
    case BoolValue(b) => b
    case IntValue(n) => n != 0
    case TextValue(_, _) => false
  }

  /** The value that a parameter should have. */
  predicate IsSet(items: seq<Item>, k: nat, kind: Kind, before: Field, after: Field)
    requires IsTarget(kind, before)
    requires forall m :: 0 <= m < |items| && items[m].attr == k ==> HasType(kind, items[m].value)
  {
    && (forall m :: 0 <= m < |items| && items[m].attr == k ==> IsHeld(kind, items[m].value, before, after))
    && ((forall m :: 0 <= m < |items| ==> items[m].attr != k) ==> IsDefault(kind, before, after))
  }

  /** Every switch is on if and only if the configuration asks for it. */
  lemma SwitchIsAsked(items: seq<Item>, k: nat, before: Field, after: Field)
    requires IsTarget(Boolean, before)
    requires forall m :: 0 <= m < |items| && items[m].attr == k ==> HasType(Boolean, items[m].value)
    requires forall m, n :: 0 <= m < n < |items| ==> items[m].attr != items[n].attr
    requires IsSet(items, k, Boolean, before, after)
    ensures after == Truth(Asks(items, k))
  {
    hide HasType, IsTarget;
    if m :| 0 <= m < |items| && items[m].attr == k {
      assert IsHeld(Boolean, items[m].value, before, after);
      BooleanHasNoText(items[m].value);
      assert forall n :: 0 <= n < |items| && n != m ==> items[n].attr != k;
    }
  }

  lemma BooleanHasNoText(value: Value)
    requires HasType(Boolean, value)
    ensures !value.TextValue?
  {}

  /**
   From the text to the program: after a configuration that names no parameter twice
   and whose strings fit, each parameter that it names has its value and each other
   one its default; only the dump of packets as text gives way to the one in
   hexadecimal.
   */
  lemma ParametersAreRead(fields: seq<Field>, lead: string, items: seq<Item>, k: nat, name: string, kind: Kind)
    requires AreTargets(ARGUMENTS, fields) && AreItems(ARGUMENTS, items) && IsBlank(lead)
    requires forall m, n :: 0 <= m < n < |items| ==> items[m].attr != items[n].attr
    requires AllFit(ARGUMENTS, items) && IsParameter(k, name, kind)
    ensures IsFlat(ARGUMENTS) && k < |ARGUMENTS| && ARGUMENTS[k] == Attr(name, kind) && IsTarget(kind, fields[k])
    ensures forall m :: 0 <= m < |items| && items[m].attr == k ==> HasType(kind, items[m].value)
    ensures var o := Read(ARGUMENTS, Print(ARGUMENTS, lead, items), fields);
            var parameters := Resolved(o.fields);
            && o.status == 0
            && (k != 6 ==> IsSet(items, k, kind, fields[k], parameters[k]))
            && (k == 6 ==> parameters[k] == Truth(Asks(items, 6) && !Asks(items, 7)))
  {
    hide IsFlat, Read, Print, AreTargets, IsSet, Asks, IsHeld, IsDefault, AllFit, HasType;
    ArgumentsAreFlat();
    ArgumentsAreParameters(k, name, kind);
    OneIsRead(fields, lead, items, k);
    if k == 6 {
      ArgumentsAreParameters(7, "dump_hex", Boolean);
      OneIsRead(fields, lead, items, 7);
      var o := Read(ARGUMENTS, Print(ARGUMENTS, lead, items), fields);
      ArgumentsAreSized(fields);
      ArgumentsAreSized(o.fields);
      SwitchIsAsked(items, 6, fields[6], o.fields[6]);
      SwitchIsAsked(items, 7, fields[7], o.fields[7]);
    }
  }

  lemma OneIsRead(fields: seq<Field>, lead: string, items: seq<Item>, k: nat)
    requires AreTargets(ARGUMENTS, fields) && AreItems(ARGUMENTS, items) && IsBlank(lead) && IsFlat(ARGUMENTS)
    requires forall m, n :: 0 <= m < n < |items| ==> items[m].attr != items[n].attr
    requires AllFit(ARGUMENTS, items) && k < |ARGUMENTS|
    ensures IsTarget(ARGUMENTS[k].kind, fields[k])
    ensures forall m :: 0 <= m < |items| && items[m].attr == k ==> HasType(ARGUMENTS[k].kind, items[m].value)
    ensures var o := Read(ARGUMENTS, Print(ARGUMENTS, lead, items), fields);
            o.status == 0 && IsSet(items, k, ARGUMENTS[k].kind, fields[k], o.fields[k])
  {
    hide IsFlat, Read, Print, IsHeld, IsDefault, AllFit, HasType, IsTarget;
    ConfigurationIsRead(ARGUMENTS, fields, lead, items, k);
  }

  const PORT := 4

  /** A configuration of the port alone, without white space. */
  function PortOnly(port: int): seq<Item> {
    [Item(PORT, IntValue(port), Layout("", "", "", ""))]
  }

  /**
   A real configuration cut short: without its closing brace the port's whole text
   is there, the status is 0, and the port is 0; with the brace it is the port.
   */
  lemma CutConfigurationLosesPort(fields: seq<Field>, port: int)
    requires AreTargets(ARGUMENTS, fields) && -0x8000_0000 <= port <= 0x7fff_ffff
    ensures IsFlat(ARGUMENTS) && AreItems(ARGUMENTS, PortOnly(port))
    ensures var text := "{\"port\":" + Decimal(port) + "}";
            var whole, cut := Read(ARGUMENTS, text, fields), Read(ARGUMENTS, text[..|text| - 1], fields);
            && whole.status == 0 && whole.fields[PORT] == Number(port)
            && cut.status == 0 && cut.fields[PORT] == Number(0)
  {
    hide IsFlat, Read, PrintName, PrintValue, AreTargets, Print;
    ArgumentsAreFlat();
    PortIsShown(port);
    var items := PortOnly(port);
    PortFits(port);
    ConfigurationIsRead(ARGUMENTS, fields, "", items, PORT);
    PortLength(port);
    PrintedCutIff(ARGUMENTS, fields, "", items, |Print(ARGUMENTS, "", items)| - 1);
    assert items[..0] == [];
    PortDefault(fields);
  }

  lemma PortFits(port: int)
    requires -0x8000_0000 <= port <= 0x7fff_ffff
    ensures AreItems(ARGUMENTS, PortOnly(port)) && AllFit(ARGUMENTS, PortOnly(port)) && IsBlank("")
  {}

  lemma PortIsShown(port: int)
    requires AreItems(ARGUMENTS, PortOnly(port))
    ensures Print(ARGUMENTS, "", PortOnly(port)) == "{\"port\":" + Decimal(port) + "}"
  {
    hide IsItem, Decimal;
    var items := PortOnly(port);
    var none: seq<Item> := [];
    assert items[1..] == none && PrintItems(ARGUMENTS, none) == "}";
    assert PrintItem(ARGUMENTS, items[0]) == "\"port\":" + Decimal(port);
  }

  lemma PortLength(port: int)
    requires AreItems(ARGUMENTS, PortOnly(port))
    ensures var items := PortOnly(port);
            |Print(ARGUMENTS, "", items)| == 1 + |PrintItem(ARGUMENTS, items[0])| + 1
  {
    hide PrintItem, IsItem;
    var items := PortOnly(port);
    var none: seq<Item> := [];
    assert items[1..] == none && PrintItems(ARGUMENTS, none) == "}";
    assert |PrintItems(ARGUMENTS, items)| == |PrintItem(ARGUMENTS, items[0])| + 1;
  }

  lemma PortDefault(fields: seq<Field>)
    requires AreTargets(ARGUMENTS, fields)
    ensures IsTable(ARGUMENTS) && Defaults(ARGUMENTS, fields)[PORT] == Number(0)
    ensures Default(ARGUMENTS[PORT].kind, fields[PORT]) == Number(0)
  {
    assert ARGUMENTS[PORT] == Attr("port", Integer);
    assert IsTarget(ARGUMENTS[PORT].kind, fields[PORT]);
  }
}
