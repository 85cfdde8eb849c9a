/**
 What the reader makes of a text that ends too early.  Its documentation calls
 status 0 success, but the only end of input that it counts as an error is one
 before the opening brace; so a text cut short is mostly accepted, and the values
 that had not been stored yet silently keep their defaults.
 */
module JsonTruncation {
  import opened JsonModel
  import opened JsonRoundTrip

  /** At some head of the loop the cursor is at j, and the object has been opened. */
  predicate Stands(table: seq<Attr>, text: string, i: nat, r: Reader, j: nat)
    requires i <= |text| && Ready(table, r)
    decreases Rank(text, i, r)
  {
    || (i == j && !r.phase.Init?)
    || (i < |text| && var s := Step(table, text, i, r); s.Go? && Stands(table, text, s.cp, s.next, j))
  }

  /** The closing brace comes before j. */
  predicate Closes(table: seq<Attr>, text: string, i: nat, r: Reader, j: nat)
    requires i <= |text| && Ready(table, r)
    decreases Rank(text, i, r)
  {
    i < |text| &&
    var s := Step(table, text, i, r);
    if s.Go? then Closes(table, text, s.cp, s.next, j) else s.status == 0 && SkipSpaces(text, i) < j
  }

  /** The targets as they are when the cursor first reaches j, or the reader stops. */
  function HeldAt(table: seq<Attr>, text: string, i: nat, r: Reader, j: nat): seq<Field>
    requires i <= |text| && Ready(table, r)
    decreases Rank(text, i, r)
  {
    if i >= j || i == |text| then r.fields else
      match Step(table, text, i, r)
      case Go(cp, next) => HeldAt(table, text, cp, next, j)
      case Stop(_, fields) => fields
  }

  lemma {:induction false} SkipOnCut(text: string, i: nat, j: nat)
    requires i <= j <= |text|
    ensures SkipSpaces(text[..j], i) == if SkipSpaces(text, i) < j then SkipSpaces(text, i) else j
    decreases j - i
  {
    hide IsSpace;
    if i < j {
      SkipOnCut(text, i + 1, j);
    }
  }

  /** What a step on the cut text is, given the step on the whole text. */
  predicate IsCutStep(text: string, i: nat, j: nat, s: Stepped, t: Stepped)
    requires i <= |text|
  {
    if (s.Go? && s.cp > j) || (s.Stop? && s.status == 0 && SkipSpaces(text, i) >= j) then t.Stop? && t.status != 0
    else t == s
  }

  lemma PostValOnCut(table: seq<Attr>, text: string, i: nat, r: Reader, j: nat)
    requires i < j <= |text| && Ready(table, r) && r.phase.PostVal?
    ensures IsCutStep(text, i, j, OnPostVal(table, text, i, r), OnPostVal(table, text[..j], i, r))
  {
    hide Seek, CString, Stored, SkipSpaces, Ready;
    SkipOnCut(text, i, j);
  }

  lemma EscapeOnCut(text: string, i: nat, r: Reader, j: nat)
    requires i < j <= |text|
    ensures IsCutStep(text, i, j, OnInEscape(text, i, r), OnInEscape(text[..j], i, r))
  {
    hide IsFull, IsHex, Unescaped, SkipSpaces;
  }

  /** A step looks no further than where it goes, and fails when that is beyond the cut. */
  lemma StepOnCut(table: seq<Attr>, text: string, i: nat, r: Reader, j: nat)
    requires i < j <= |text| && Ready(table, r)
    ensures IsCutStep(text, i, j, Step(table, text, i, r), Step(table, text[..j], i, r))
  {
    hide Find, IsSpace, OnPostVal, OnInEscape, SkipSpaces, AreTargets, IsTable;
    if r.phase.PostVal? {
      PostValOnCut(table, text, i, r, j);
    } else {
      EscapeOnCut(text, i, r, j);
    }
  }

  /**
   Exactly when a text that ends at j is accepted: when the object was closed
   before j, or the cursor, having passed the opening brace, stands at j at some
   head of the loop.  The targets then hold what had been stored by then.
   */
  lemma {:induction false} CutFrom(table: seq<Attr>, text: string, i: nat, r: Reader, j: nat)
    requires i <= j <= |text| && Ready(table, r)
    ensures var o := ReadFrom(table, text[..j], i, r);
            && (o.status == 0 <==> Stands(table, text, i, r, j) || Closes(table, text, i, r, j))
            && (o.status == 0 ==> o.fields == HeldAt(table, text, i, r, j))
    decreases Rank(text, i, r)
  {
    hide Step, Ready;
    if i < j {
      StepOnCut(table, text, i, r, j);
      Next(table, text[..j], i, r);
      var s := Step(table, text, i, r);
      if s.Go? && s.cp <= j {
        CutFrom(table, text, s.cp, s.next, j);
      } else if s.Go? {
        Beyond(table, text, s.cp, s.next, j);
      }
    } else {
      AtCut(table, text, r, j);
    }
  }

  lemma AtCut(table: seq<Attr>, text: string, r: Reader, j: nat)
    requires j <= |text| && Ready(table, r)
    ensures Stands(table, text, j, r, j) || Closes(table, text, j, r, j) <==> !r.phase.Init?
    ensures ReadFrom(table, text[..j], j, r) == Outcome(if r.phase.Init? then ERR_EMPTY else 0, r.fields)
  {
    hide Ready;
    if j < |text| && r.phase.Init? && Step(table, text, j, r).Go? {
      Beyond(table, text, j + 1, Step(table, text, j, r).next, j);
    }
  }

  /** The cursor never goes back. */
  lemma {:induction false} Beyond(table: seq<Attr>, text: string, i: nat, r: Reader, j: nat)
    requires j < i <= |text| && Ready(table, r)
    ensures !Stands(table, text, i, r, j) && !Closes(table, text, i, r, j)
    decreases Rank(text, i, r)
  {
    hide Step, Ready;
    if i < |text| && Step(table, text, i, r).Go? {
      Beyond(table, text, Step(table, text, i, r).cp, Step(table, text, i, r).next, j);
    }
  }

  /** The cut of a whole text. */
  lemma CutIff(table: seq<Attr>, text: string, fields: seq<Field>, j: nat)
    requires IsTable(table) && AreTargets(table, fields) && j <= |text|
    ensures var r := Start(table, fields);
            && (Read(table, text[..j], fields).status == 0 <==>
                  Stands(table, text, 0, r, j) || Closes(table, text, 0, r, j))
            && (Read(table, text[..j], fields).status == 0 ==>
                  Read(table, text[..j], fields).fields == HeldAt(table, text, 0, r, j))
  {
    hide ReadFrom, Stands, Closes, HeldAt;
    CutFrom(table, text, 0, Start(table, fields), j);
  }

  /** No white space to skip and no escape to look ahead for. */
  predicate IsPlain(text: string) {
    forall c :: c in text ==> !IsWhite(c) && c != '\\'
  }

  lemma PlainStep(table: seq<Attr>, text: string, i: nat, r: Reader)
    requires i < |text| && Ready(table, r) && IsPlain(text) && !r.phase.InEscape?
    ensures var s := Step(table, text, i, r);
            s.Go? ==> s.cp <= i + 1 && !s.next.phase.InEscape? && !s.next.phase.Init?
    ensures SkipSpaces(text, i) == i
  {
    hide Find, Seek, CString, Stored, Ready, IsFull, IsSpace;
    assert text[i] in text;
    WhiteIff(text[i]);
  }

  lemma {:induction false} PlainFrom(table: seq<Attr>, text: string, i: nat, r: Reader, j: nat)
    requires i <= j <= |text| && Ready(table, r) && IsPlain(text) && !r.phase.InEscape?
    requires r.phase.Init? ==> i < j
    requires ReadFrom(table, text, i, r).status == 0
    ensures Stands(table, text, i, r, j) || Closes(table, text, i, r, j)
    decreases Rank(text, i, r)
  {
    hide Step, Ready, IsPlain, SkipSpaces;
    if i < j {
      PlainStep(table, text, i, r);
      var s := Step(table, text, i, r);
      if s.Go? {
        PlainFrom(table, text, s.cp, s.next, j);
      }
    }
  }

  /**
   Status 0 does not mean a whole object: an accepted text without white space
   and reverse solidus is still accepted when it is cut anywhere after its first
   character.
   */
  lemma TruncationIsSilent(table: seq<Attr>, text: string, fields: seq<Field>, j: nat)
    requires IsTable(table) && AreTargets(table, fields)
    requires IsPlain(text) && Read(table, text, fields).status == 0
    requires 0 < j <= |text|
    ensures Read(table, text[..j], fields).status == 0
  {
    hide ReadFrom, Stands, Closes, HeldAt, IsPlain;
    PlainFrom(table, text, 0, Start(table, fields), j);
    CutIff(table, text, fields, j);
  }

  // ---------- Where a printed configuration may be cut ----------

  /** How much white space after a value does no harm at the end: a token needs one character to end. */
  function Grace(value: Value): nat {
    if value.TextValue? then 0 else 1
  }

  /** A cut after j characters of the items lies in white space behind a value, past its grace. */
  predicate InBlank(table: seq<Attr>, items: seq<Item>, j: nat)
    requires AreItems(table, items)
    decreases |items|
  {
    items != [] &&
    var item := items[0];
    var value := |PrintName(item.layout, table[item.attr].name)| + |PrintValue(item.value)|;
    if j <= |PrintItem(table, item)| then j > value + Grace(item.value)
    else InBlank(table, items[1..], j - |PrintItem(table, item)| - 1)
  }

  /** A cut after j characters of a string's body lies in a numbered escape, behind its u. */
  predicate InNumber(spelling: seq<string>, j: nat) {
    spelling != [] &&
    if j < |spelling[0]| then |spelling[0]| == 6 && j >= 2 else InNumber(spelling[1..], j - |spelling[0]|)
  }

  /** A cut after j characters of the items lies in a numbered escape. */
  predicate InEscaped(table: seq<Attr>, items: seq<Item>, j: nat)
    requires AreItems(table, items)
    decreases |items|
  {
    items != [] &&
    var item := items[0];
    if j <= |PrintItem(table, item)| then InNumberOf(item.value, j - |PrintName(item.layout, table[item.attr].name)|)
    else InEscaped(table, items[1..], j - |PrintItem(table, item)| - 1)
  }

  /** The same for a value, its opening quote included. */
  predicate InNumberOf(value: Value, j: int) {
    value.TextValue? && j > 0 && InNumber(value.spelling, j - 1)
  }

  /** The items that end, with their comma or brace, before a cut after j characters. */
  function Completed(table: seq<Attr>, items: seq<Item>, j: nat): (n: nat)
    requires AreItems(table, items)
    ensures n <= |items|
    decreases |items|
  {
    if items == [] || j <= |PrintItem(table, items[0])| then 0
    else 1 + Completed(table, items[1..], j - |PrintItem(table, items[0])| - 1)
  }

  /** The text shows this from i on, and then it ends. */
  predicate EndsWith(text: string, i: nat, seg: string) {
    Has(text, i, seg) && i + |seg| == |text|
  }

  lemma EndsBoth(text: string, i: nat, a: string, b: string)
    requires EndsWith(text, i, a + b)
    ensures Has(text, i, a) && EndsWith(text, i + |a|, b) && i + |a| <= |text|
  {
    HasBoth(text, i, a, b);
  }

  lemma EndsHead(text: string, i: nat, seg: string)
    requires EndsWith(text, i, seg) && seg != []
    ensures i < |text| && text[i] == seg[0] && EndsWith(text, i + 1, seg[1..])
  {
    HasHead(text, i, seg);
  }

  lemma EndsHere(text: string, i: nat, seg: string)
    requires EndsWith(text, i, seg)
    ensures Has(text, i, seg) && i + |seg| == |text|
  {}

  /** A beginning of a + b is a beginning of a, or all of a and a beginning of b. */
  lemma PrefixOfBoth(x: string, a: string, b: string) returns (y: string)
    requires x <= a + b
    ensures |x| <= |a| ==> x <= a
    ensures |x| > |a| ==> x == a + y && y <= b && |y| == |x| - |a|
  {
    y := if |x| > |a| then x[|a|..] else "";
    assert |x| > |a| ==> x[..|a|] == a && y == (a + b)[|a|..|x|];
  }

  predicate IsColonOrBlank(s: string) {
    forall c :: c in s ==> IsWhite(c) || c == ':'
  }

  lemma {:induction false} ReadColons(table: seq<Attr>, text: string, i: nat, r: Reader, s: string)
    requires i <= |text| && Ready(table, r) && r.phase.AwaitValue? && EndsWith(text, i, s) && IsColonOrBlank(s)
    ensures ReadFrom(table, text, i, r) == Outcome(0, r.fields)
    decreases |s|
  {
    hide ReadFrom, Ready, IsSpace;
    if s == [] {
      AtEnd(table, text, r);
    } else {
      HasHead(text, i, s);
      WhiteIff(s[0]);
      Next(table, text, i, r);
      ReadColons(table, text, i + 1, r, s[1..]);
    }
  }

  /** Cut behind the closing quote of a name. */
  lemma {:induction false} CutInColon(table: seq<Attr>, text: string, i: nat, r: Reader, l: Layout, x: string)
    requires i <= |text| && Ready(table, r) && r.phase.InAttr? && IsLayout(l)
    requires Find(table, r.attr, 0) < |table| && x != []
    requires EndsWith(text, i, x) && x <= ['"'] + (l.afterName + ([':'] + l.beforeValue))
    ensures ReadFrom(table, text, i, r) == Outcome(0, r.fields)
  {
    hide ReadFrom, Find, IsSpace;
    HasHead(text, i, x);
    Next(table, text, i, r);
    var rest := l.afterName + ([':'] + l.beforeValue);
    assert x[1..] <= rest;
    forall c | c in x[1..]
      ensures IsWhite(c) || c == ':'
    {
      assert c in rest;
    }
    ReadColons(table, text, i + 1, Step(table, text, i, r).next, x[1..]);
  }

  /** Cut inside a quoted name, or behind it. */
  lemma CutInQuoted(table: seq<Attr>, text: string, i: nat, r: Reader, k: nat, l: Layout, x: string)
    requires i <= |text| && Ready(table, r) && r.phase.InAttr? && r.attr == [] && IsLayout(l)
    requires IsFlat(table) && k < |table|
    requires EndsWith(text, i, x) && x <= table[k].name + (['"'] + (l.afterName + ([':'] + l.beforeValue)))
    ensures ReadFrom(table, text, i, r) == Outcome(0, r.fields)
  {
    hide ReadFrom, Find, IsLayout, IsFlat, IsTarget;
    FindsName(table, k);
    var name, tail := table[k].name, ['"'] + (l.afterName + ([':'] + l.beforeValue));
    var y := PrefixOfBoth(x, name, tail);
    if |x| <= |name| {
      ReadName(table, text, i, r, x);
      AtEnd(table, text, r.(attr := r.attr + x));
    } else {
      EndsBoth(text, i, name, y);
      ReadName(table, text, i, r, name);
      assert r.attr + name == name;
      CutInColon(table, text, i + |name|, r.(attr := name), l, y);
    }
  }

  /** Cut anywhere before a value begins. */
  lemma {:induction false} CutInName(table: seq<Attr>, text: string, i: nat, r: Reader, k: nat, l: Layout, x: string)
    requires i <= |text| && Ready(table, r) && r.phase.AwaitAttr? && IsLayout(l)
    requires IsFlat(table) && k < |table|
    requires EndsWith(text, i, x) && x <= PrintName(l, table[k].name)
    ensures ReadFrom(table, text, i, r) == Outcome(0, r.fields)
  {
    hide ReadFrom, IsFlat, IsTarget, AreTargets, IsBlank, EndsWith, Has;
    var tail := table[k].name + (['"'] + (l.afterName + ([':'] + l.beforeValue)));
    var y := PrefixOfBoth(x, l.before, ['"'] + tail);
    if |x| <= |l.before| {
      BlankPrefix(l.before, x);
      EndsHere(text, i, x);
      ReadBlank(table, text, i, r, x);
      AtEnd(table, text, r);
    } else {
      EndsBoth(text, i, l.before, y);
      ReadBlank(table, text, i, r, l.before);
      var p := i + |l.before|;
      EndsHead(text, p, y);
      Next(table, text, p, r);
      assert y[1..] <= tail;
      CutInQuoted(table, text, p + 1, r.(phase := InAttr, attr := ""), k, l, y[1..]);
    }
  }

  lemma BlankPrefix(gap: string, x: string)
    requires IsBlank(gap) && x <= gap
    ensures IsBlank(x)
  {
    hide IsSpace;
    assert forall c :: c in x ==> c in gap;
  }

  // ---------- Cuts in values ----------

  lemma {:induction false} CutInBody(table: seq<Attr>, text: string, i: nat, r: Reader,
                                     s: string, spelling: seq<string>, x: string)
    requires i <= |text| && Ready(table, r) && r.phase.InString? && |r.value| + |s| <= Limit(r.maxlen)
    requires EndsWith(text, i, x) && x <= Body(spelling) && AreReadable(spelling, s)
    ensures ReadFrom(table, text, i, r) == Outcome(if InNumber(spelling, |x|) then ERR_BADSTRING else 0, r.fields)
    decreases |s|
  {
    hide ReadFrom, Ready, IsReadable;
    if spelling == [] {
      AtEnd(table, text, r);
    } else {
      var e := spelling[0];
      var y := PrefixOfBoth(x, e, Body(spelling[1..]));
      if |x| >= |e| {
        var rest := x[|e|..];
        assert x == e + rest && (|x| > |e| ==> rest == y);
        EndsBoth(text, i, e, rest);
        ReadChar(table, text, i, r, e, s[0]);
        CutInBody(table, text, i + |e|, r.(value := r.value + [s[0]]), s[1..], spelling[1..], rest);
      } else {
        CutInChar(table, text, i, r, e, s[0], x);
      }
    }
  }

  /** The digits behind a u that are not there make it an error; an end right behind the reverse solidus does not. */
  lemma CutInChar(table: seq<Attr>, text: string, i: nat, r: Reader, e: string, c: char, x: string)
    requires i <= |text| && Ready(table, r) && r.phase.InString? && !IsFull(r) && IsReadable(e, c)
    requires EndsWith(text, i, x) && x <= e && |x| < |e|
    ensures ReadFrom(table, text, i, r) == Outcome(if |e| == 6 && |x| >= 2 then ERR_BADSTRING else 0, r.fields)
  {
    hide ReadFrom, AreTargets, IsTable, IsHex, Unescaped;
    if x == [] {
      AtEnd(table, text, r);
    } else {
      HasHead(text, i, x);
      Next(table, text, i, r);
      var next := r.(phase := InEscape);
      if |x| == 1 {
        AtEnd(table, text, next);
      } else {
        HasHead(text, i + 1, x[1..]);
        Next(table, text, i + 1, next);
      }
    }
  }

  lemma {:induction false} CutInText(table: seq<Attr>, text: string, i: nat, r: Reader,
                                     s: string, spelling: seq<string>, x: string)
    requires i <= |text| && Ready(table, r) && r.phase.AwaitValue? && |s| <= Limit(r.maxlen)
    requires EndsWith(text, i, x) && x <= ['"'] + (Body(spelling) + ['"']) && AreReadable(spelling, s)
    ensures ReadFrom(table, text, i, r) ==
            Outcome(if x != [] && InNumber(spelling, |x| - 1) then ERR_BADSTRING else 0, r.fields)
  {
    hide ReadFrom, Body, AreTargets, AreReadable;
    if x == [] {
      AtEnd(table, text, r);
    } else if |x| == |Body(spelling)| + 2 {
      assert x == ['"'] + (Body(spelling) + ['"']);
      NoNumberBeyond(spelling, |x| - 1);
      var next := ThroughText(table, text, i, r, s, spelling);
      AtEnd(table, text, next);
    } else {
      HasHead(text, i, x);
      Next(table, text, i, r);
      assert x[1..] <= Body(spelling);
      CutInBody(table, text, i + 1, r.(phase := InString, quoted := true, value := ""), s, spelling, x[1..]);
    }
  }

  lemma {:induction false} NoNumberBeyond(spelling: seq<string>, j: nat)
    requires j >= |Body(spelling)|
    ensures !InNumber(spelling, j)
  {
    if spelling != [] {
      NoNumberBeyond(spelling[1..], j - |spelling[0]|);
    }
  }

  lemma CutInToken(table: seq<Attr>, text: string, i: nat, r: Reader, t: string, x: string)
    requires i <= |text| && Ready(table, r) && r.phase.AwaitValue?
    requires 0 < |t| <= 11 && IsToken(t) && t[0] != ':' && t[0] != '[' && t[0] != '{' && t[0] != '"'
    requires EndsWith(text, i, x) && x <= t
    ensures ReadFrom(table, text, i, r) == Outcome(0, r.fields)
  {
    hide ReadFrom, AreTargets;
    if x == [] {
      AtEnd(table, text, r);
    } else {
      assert forall c :: c in x ==> c in t;
      var next := ThroughToken(table, text, i, r, x);
      AtEnd(table, text, next);
    }
  }

  /** Cut inside a value, or right behind it. */
  lemma CutInValue(table: seq<Attr>, text: string, i: nat, r: Reader, value: Value, x: string)
    requires i <= |text| && Ready(table, r) && r.phase.AwaitValue? && HasType(table[r.cursor].kind, value)
    requires table[r.cursor].kind.Text? ==> r.maxlen == table[r.cursor].kind.len - 1
    requires Fits(table[r.cursor].kind, value)
    requires EndsWith(text, i, x) && x <= PrintValue(value)
    ensures ReadFrom(table, text, i, r) == Outcome(if InNumberOf(value, |x|) then ERR_BADSTRING else 0, r.fields)
  {
    hide ReadFrom, Body, EndsWith, Fitted, AreReadable, InNumber;
    var kind := table[r.cursor].kind;
    if kind.Text? {
      CutInText(table, text, i, r, value.s, value.spelling, x);
    } else {
      TokenOf(kind, value, r.fields[r.cursor]);
      CutInToken(table, text, i, r, PrintValue(value), x);
    }
  }

  // ---------- Cuts in the white space behind a value ----------

  /** White space to the end of the text: the value is stored, and then the end is not what was expected. */
  lemma BlankToTheEnd(table: seq<Attr>, text: string, i: nat, r: Reader, gap: string)
    requires i < |text| && Ready(table, r) && r.phase.PostVal? && IsFlat(table)
    requires EndsWith(text, i, gap) && IsBlank(gap)
    requires r.attr == table[r.cursor].name && r.quoted == table[r.cursor].kind.Text?
    ensures ReadFrom(table, text, i, r).status == ERR_BADTRAIL
  {
    hide ReadFrom, Seek, Stored, IsTarget, IsBlank, CString;
    SkipsToEnd(text, i, gap);
    SeekStays(table, r.cursor, r.quoted, CString(r.value));
    Next(table, text, i, r);
  }

  lemma {:induction false} SkipsToEnd(text: string, i: nat, gap: string)
    requires EndsWith(text, i, gap) && IsBlank(gap)
    ensures SkipSpaces(text, i) == |text|
    decreases |gap|
  {
    hide IsSpace;
    if gap != [] {
      HasHead(text, i, gap);
      WhiteIff(gap[0]);
      SkipsToEnd(text, i + 1, gap[1..]);
    }
  }

  lemma CutInGap(table: seq<Attr>, text: string, i: nat, r: Reader, value: Value, gap: string)
    requires i <= |text| && Ready(table, r) && r.phase.AwaitValue? && HasType(table[r.cursor].kind, value)
    requires IsFlat(table) && r.attr == table[r.cursor].name && IsBlank(gap)
    requires table[r.cursor].kind.Text? ==> r.maxlen == table[r.cursor].kind.len - 1
    requires Fits(table[r.cursor].kind, value)
    requires EndsWith(text, i, PrintValue(value) + gap)
    ensures |gap| <= Grace(value) ==> ReadFrom(table, text, i, r) == Outcome(0, r.fields)
    ensures |gap| > Grace(value) ==> ReadFrom(table, text, i, r).status == ERR_BADTRAIL
  {
    hide ReadFrom, Body, Fitted, IsFlat, IsBlank, IsSpace, AreTargets, IsToken, AreReadable;
    EndsBoth(text, i, PrintValue(value), gap);
    var kind, e := table[r.cursor].kind, i + |PrintValue(value)|;
    if kind.Text? {
      var next := ThroughText(table, text, i, r, value.s, value.spelling);
      if gap == [] {
        AtEnd(table, text, next);
      } else {
        BlankToTheEnd(table, text, e, next, gap);
      }
    } else {
      CutInTokenGap(table, text, i, r, value, gap);
    }
  }

  lemma CutInTokenGap(table: seq<Attr>, text: string, i: nat, r: Reader, value: Value, gap: string)
    requires i <= |text| && Ready(table, r) && r.phase.AwaitValue? && HasType(table[r.cursor].kind, value)
    requires IsFlat(table) && r.attr == table[r.cursor].name && IsBlank(gap) && !table[r.cursor].kind.Text?
    requires EndsWith(text, i, PrintValue(value) + gap)
    ensures |gap| <= 1 ==> ReadFrom(table, text, i, r) == Outcome(0, r.fields)
    ensures |gap| > 1 ==> ReadFrom(table, text, i, r).status == ERR_BADTRAIL
  {
    hide ReadFrom, IsFlat, IsBlank, AreTargets, IsToken, PrintValue, CString, Stored, Kept, Atoi;
    var t := PrintValue(value);
    EndsBoth(text, i, t, gap);
    TargetIsThere(table, r);
    TokenOf(table[r.cursor].kind, value, r.fields[r.cursor]);
    var next := ThroughToken(table, text, i, r, t);
    CutBehindToken(table, text, i + |t|, next, gap);
  }

  lemma CutBehindToken(table: seq<Attr>, text: string, i: nat, r: Reader, gap: string)
    requires i <= |text| && Ready(table, r) && r.phase.InToken? && EndsWith(text, i, gap) && IsBlank(gap)
    requires IsFlat(table) && r.attr == table[r.cursor].name && !r.quoted && !table[r.cursor].kind.Text?
    ensures |gap| <= 1 ==> ReadFrom(table, text, i, r) == Outcome(0, r.fields)
    ensures |gap| > 1 ==> ReadFrom(table, text, i, r).status == ERR_BADTRAIL
  {
    hide ReadFrom, IsFlat, IsSpace, AreTargets;
    if gap == [] {
      AtEnd(table, text, r);
    } else {
      HasHead(text, i, gap);
      assert gap[0] in gap;
      WhiteIff(gap[0]);
      Next(table, text, i, r);
      var next := r.(phase := PostVal);
      if |gap| == 1 {
        AtEnd(table, text, next);
      } else {
        assert forall c :: c in gap[1..] ==> c in gap;
        BlankToTheEnd(table, text, i + 1, next, gap[1..]);
      }
    }
  }

  lemma TargetIsThere(table: seq<Attr>, r: Reader)
    requires Ready(table, r) && r.cursor < |table|
    ensures r.cursor < |r.fields| && IsTarget(table[r.cursor].kind, r.fields[r.cursor])
  {}

  // ---------- Cuts in whole configurations ----------

  lemma {:induction false} CutInItem(table: seq<Attr>, text: string, i: nat, r: Reader, item: Item, x: string)
    requires i <= |text| && Ready(table, r) && r.phase.AwaitAttr? && IsFlat(table) && IsItem(table, item)
    requires Fits(table[item.attr].kind, item.value)
    requires EndsWith(text, i, x) && x <= PrintItem(table, item)
    ensures var value := |PrintName(item.layout, table[item.attr].name)| + |PrintValue(item.value)|;
            var inNumber := InNumberOf(item.value, |x| - |PrintName(item.layout, table[item.attr].name)|);
            && (|x| > value ==> !inNumber)
            && if |x| <= value + Grace(item.value)
               then ReadFrom(table, text, i, r) == Outcome(if inNumber then ERR_BADSTRING else 0, r.fields)
               else ReadFrom(table, text, i, r).status == ERR_BADTRAIL
  {
    hide ReadFrom, Fits, PrintValue, PrintName, IsBlank, EndsWith, IsFlat, HasType, InNumberOf;
    NoNumberIn(item.value);
    var l, name := item.layout, PrintName(item.layout, table[item.attr].name);
    var y := PrefixOfBoth(x, name, PrintValue(item.value) + l.afterValue);
    if |x| <= |name| {
      CutInName(table, text, i, r, item.attr, l, x);
    } else {
      EndsBoth(text, i, name, y);
      var next := ReadAttr(table, text, i, r, item.attr, l);
      var gap := PrefixOfBoth(y, PrintValue(item.value), l.afterValue);
      if |y| <= |PrintValue(item.value)| {
        CutInValue(table, text, i + |name|, next, item.value, y);
      } else {
        BlankPrefix(l.afterValue, gap);
        CutInGap(table, text, i + |name|, next, item.value, gap);
      }
    }
  }

  lemma NoNumberIn(value: Value)
    ensures forall j: int :: j <= 0 || j > |PrintValue(value)| ==> !InNumberOf(value, j)
  {
    hide Body, InNumber;
    if value.TextValue? {
      forall j: int | j > |PrintValue(value)|
        ensures !InNumberOf(value, j)
      {
        NoNumberBeyond(value.spelling, j - 1);
      }
    }
  }

  lemma {:induction false} CutInItems(table: seq<Attr>, text: string, i: nat, r: Reader, items: seq<Item>, x: string)
    requires i <= |text| && Ready(table, r) && r.phase.AwaitAttr? && IsFlat(table)
    requires AreItems(table, items) && AllFit(table, items)
    requires EndsWith(text, i, x) && x <= PrintItems(table, items)
    ensures var o := ReadFrom(table, text, i, r);
            && o.status == (if InEscaped(table, items, |x|) then ERR_BADSTRING
                            else if InBlank(table, items, |x|) then ERR_BADTRAIL else 0)
            && (o.status == 0 ==> o.fields == KeptAll(table, r.fields, items[..Completed(table, items, |x|)]))
    decreases |items|
  {
    hide ReadFrom, PrintItem, Fits, Kept, PrintName, PrintValue, EndsWith, Has, IsFlat, InNumberOf;
    if items == [] {
      CutInClose(table, text, i, r, x);
    } else {
      var item, size := items[0], |PrintItem(table, items[0])|;
      var c, more := if |items| == 1 then '}' else ',', if |items| == 1 then [] else PrintItems(table, items[1..]);
      assert PrintItems(table, items) == PrintItem(table, item) + ([c] + more);
      var y := PrefixOfBoth(x, PrintItem(table, item), [c] + more);
      AllFitRest(table, items);
      if |x| <= size {
        CutInItem(table, text, i, r, item, x);
      } else {
        assert x == (PrintItem(table, item) + [c]) + y[1..] && y[1..] <= more;
        EndsBoth(text, i, PrintItem(table, item) + [c], y[1..]);
        var next := ReadItem(table, text, i, r, item, c);
        if |items| > 1 {
          CutInItems(table, text, i + size + 1, next, items[1..], y[1..]);
        }
        FirstCompleted(table, r.fields, items, |x|);
      }
    }
  }

  lemma CutInClose(table: seq<Attr>, text: string, i: nat, r: Reader, x: string)
    requires i <= |text| && Ready(table, r) && r.phase.AwaitAttr? && EndsWith(text, i, x) && x <= "}"
    ensures ReadFrom(table, text, i, r) == Outcome(0, r.fields)
  {
    hide ReadFrom;
    if x != [] {
      HasHead(text, i, x);
      Next(table, text, i, r);
    }
    AtEnd(table, text, r);
  }

  lemma FirstCompleted(table: seq<Attr>, fields: seq<Field>, items: seq<Item>, j: nat)
    requires IsTable(table) && AreTargets(table, fields) && AreItems(table, items) && items != []
    requires j > |PrintItem(table, items[0])|
    ensures var n := Completed(table, items[1..], j - |PrintItem(table, items[0])| - 1);
            var k := items[0].attr;
            && KeptAll(table, fields, items[..Completed(table, items, j)]) ==
               KeptAll(table, fields[k := Kept(table[k].kind, fields[k], items[0].value)], items[1..][..n])
  {
    hide Kept, PrintItem;
    var n := Completed(table, items[1..], j - |PrintItem(table, items[0])| - 1);
    assert items[..n + 1][1..] == items[1..][..n];
  }

  /**
   Where a printed configuration that would be accepted may be cut: it is still
   accepted if and only if the cut is behind the opening brace and neither in white
   space after a value, one blank being allowed after a token, nor in a numbered
   escape, behind its u.  The targets then hold the items that were complete, and the
   defaults of all others.
   */
  lemma PrintedCutIff(table: seq<Attr>, fields: seq<Field>, lead: string, items: seq<Item>, j: nat)
    requires IsFlat(table) && AreTargets(table, fields) && AreItems(table, items) && IsBlank(lead)
    requires AllFit(table, items) && j <= |Print(table, lead, items)|
    ensures var o := Read(table, Print(table, lead, items)[..j], fields);
            && (o.status == 0 <==>
                  j > |lead| && !InBlank(table, items, j - |lead| - 1) && !InEscaped(table, items, j - |lead| - 1))
            && (o.status != 0 ==>
                  o.status == if j <= |lead| then ERR_EMPTY
                              else if InEscaped(table, items, j - |lead| - 1) then ERR_BADSTRING else ERR_BADTRAIL)
            && (o.status == 0 ==>
                  o.fields == KeptAll(table, Defaults(table, fields), items[..Completed(table, items, j - |lead| - 1)]))
  {
    hide ReadFrom, Defaults, KeptAll, AllFit, PrintItems, IsBlank, AreTargets, InBlank, Completed, InEscaped;
    var r, rest := Start(table, fields), PrintItems(table, items);
    var text := Print(table, lead, items)[..j];
    assert Print(table, lead, items) == lead + (['{'] + rest);
    assert text <= lead + (['{'] + rest) && EndsWith(text, 0, text);
    var y := PrefixOfBoth(text, lead, ['{'] + rest);
    if j <= |lead| {
      BlankPrefix(lead, text);
      ReadBlank(table, text, 0, r, text);
      AtEnd(table, text, r);
    } else {
      EndsBoth(text, 0, lead, y);
      ReadBlank(table, text, 0, r, lead);
      HasHead(text, |lead|, y);
      Next(table, text, |lead|, r);
      assert y[1..] <= rest;
      CutInItems(table, text, |lead| + 1, r.(phase := AwaitAttr), items, y[1..]);
    }
  }

  // ---------- Closing braces that do not close ----------

  function Shifted(s: Stepped, n: nat): Stepped {
    if s.Go? then Go(s.cp + n, s.next) else s
  }

  lemma {:induction false} SkipShift(a: string, t: string, i: nat)
    requires i <= |t|
    ensures SkipSpaces(a + t, |a| + i) == |a| + SkipSpaces(t, i)
    decreases |t| - i
  {
    hide IsSpace;
    if i < |t| {
      SkipShift(a, t, i + 1);
    }
  }

  /** A step looks only at the text from its position on. */
  lemma StepShift(table: seq<Attr>, a: string, t: string, i: nat, r: Reader)
    requires i < |t| && Ready(table, r)
    ensures Step(table, a + t, |a| + i, r) == Shifted(Step(table, t, i, r), |a|)
  {
    hide Find, IsSpace, SkipSpaces, AreTargets, IsTable, OnPostVal, OnInEscape;
    assert (a + t)[|a| + i] == t[i];
    if r.phase.PostVal? {
      PostValShift(table, a, t, i, r);
    } else {
      EscapeShift(a, t, i, r);
    }
  }

  lemma PostValShift(table: seq<Attr>, a: string, t: string, i: nat, r: Reader)
    requires i < |t| && Ready(table, r) && r.phase.PostVal?
    ensures OnPostVal(table, a + t, |a| + i, r) == Shifted(OnPostVal(table, t, i, r), |a|)
  {
    hide Seek, SkipSpaces, CString, Stored, Ready;
    SkipShift(a, t, i);
  }

  lemma EscapeShift(a: string, t: string, i: nat, r: Reader)
    requires i < |t|
    ensures OnInEscape(a + t, |a| + i, r) == Shifted(OnInEscape(t, i, r), |a|)
  {
    hide IsFull, IsHex, Unescaped;
  }

  lemma {:induction false} ReadShift(table: seq<Attr>, a: string, t: string, i: nat, r: Reader)
    requires i <= |t| && Ready(table, r)
    ensures ReadFrom(table, a + t, |a| + i, r) == ReadFrom(table, t, i, r)
    decreases Rank(t, i, r)
  {
    hide Step, Ready;
    if i < |t| {
      StepShift(table, a, t, i, r);
      var s := Step(table, t, i, r);
      if s.Go? {
        ReadShift(table, a, t, s.cp, s.next);
      }
    }
  }

  predicate IsBraceOrBlank(s: string) {
    forall c :: c in s ==> IsWhite(c) || c == '}'
  }

  lemma {:induction false} ReadBraces(table: seq<Attr>, text: string, i: nat, r: Reader, s: string)
    requires i <= |text| && Ready(table, r) && r.phase.AwaitAttr? && Has(text, i, s) && IsBraceOrBlank(s)
    ensures ReadFrom(table, text, i, r) == ReadFrom(table, text, i + |s|, r)
    decreases |s|
  {
    hide ReadFrom, Ready, IsSpace;
    if s != [] {
      HasHead(text, i, s);
      WhiteIff(s[0]);
      Next(table, text, i, r);
      ReadBraces(table, text, i + 1, r, s[1..]);
    }
  }

  lemma ReadOpened(table: seq<Attr>, fields: seq<Field>, lead: string, skip: string, rest: string)
    requires IsTable(table) && AreTargets(table, fields) && IsBlank(lead) && IsBraceOrBlank(skip)
    ensures Ready(table, Start(table, fields).(phase := AwaitAttr))
    ensures Read(table, lead + ['{'] + skip + rest, fields) ==
            ReadFrom(table, rest, 0, Start(table, fields).(phase := AwaitAttr))
  {
    hide ReadFrom, Defaults, IsBlank, AreTargets, IsTable;
    var text, r := lead + ['{'] + skip + rest, Start(table, fields);
    assert text == lead + (['{'] + (skip + rest));
    assert Has(text, 0, lead + (['{'] + (skip + rest)));
    HasBoth(text, 0, lead, ['{'] + (skip + rest));
    ReadBlank(table, text, 0, r, lead);
    HasCons(text, |lead|, '{', skip + rest);
    Next(table, text, |lead|, r);
    HasBoth(text, |lead| + 1, skip, rest);
    ReadBraces(table, text, |lead| + 1, r.(phase := AwaitAttr), skip);
    ReadShift(table, lead + ['{'] + skip, rest, 0, r.(phase := AwaitAttr));
  }

  /**
   An empty object is not an end: what follows it, with any more closing braces and
   white space, is read as if the opening brace stood right before it.  So a text
   that begins with an empty object is accepted exactly when the text without the
   closing braces is.
   */
  lemma EmptyObjectIsSkipped(table: seq<Attr>, fields: seq<Field>,
                                                lead: string, skip: string, rest: string)
    requires IsTable(table) && AreTargets(table, fields) && IsBlank(lead) && IsBraceOrBlank(skip)
    ensures Read(table, lead + ['{'] + skip + rest, fields) == Read(table, lead + ['{'] + rest, fields)
  {
    hide Read, ReadFrom;
    ReadOpened(table, fields, lead, skip, rest);
    ReadOpened(table, fields, lead, "", rest);
    assert lead + ['{'] + "" + rest == lead + ['{'] + rest;
  }
}
