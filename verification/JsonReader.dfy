/**
 json_read_object as the loop it is: a cursor over the text, two fixed character
 buffers with their fill pointers, and the targets, which are written in place.
 Every turn of the loop is proved to be a step of JsonModel, so the loop ends on
 every text, and no store leaves its buffer.
 */
module JsonReader {
  import opened JsonModel

  class JsonReader {
    const attrs: seq<Attr>
    const targets: array<Field>
    const attrbuf: array<char>
    const valbuf: array<char>
    var state: Phase
    // Where the next character goes; at the end of a name or a value, the NUL.
    var pattr: nat
    var pval: nat
    var valueQuoted: bool
    var cursor: nat
    var maxlen: int

    ghost predicate Sized() {
      && attrbuf.Length == JSON_ATTR_MAX + 1 && valbuf.Length == JSON_VAL_MAX + 1
      && attrbuf != valbuf
      && IsTable(attrs)
    }

    ghost function Value(): Reader
      requires Sized() && pattr <= JSON_ATTR_MAX && pval <= JSON_VAL_MAX
      reads this, attrbuf, valbuf, targets
    {
      Reader(state, attrbuf[..pattr], valbuf[..pval], valueQuoted, cursor, maxlen, targets[..])
    }

    ghost predicate Valid()
      reads this, attrbuf, valbuf, targets
    {
      && Sized() && pattr < JSON_ATTR_MAX && pval <= JSON_VAL_MAX
      && Ready(attrs, Value())
      && (state.PostVal? ==> valbuf[pval] == '\0')
    }

    constructor (attrs: seq<Attr>, targets: array<Field>)
      requires IsTable(attrs)
      ensures Sized() && this.attrs == attrs && this.targets == targets
      ensures fresh(attrbuf) && fresh(valbuf)
    {
      this.attrs, this.targets := attrs, targets;
      attrbuf := new char[JSON_ATTR_MAX + 1](_ => '\0');
      valbuf := new char[JSON_VAL_MAX + 1](_ => '\0');
      state, pattr, pval, valueQuoted, cursor, maxlen := Init, 0, 0, false, 0, 0;
    }

    /** Stuff the targets with defaults in case the input omits them. */
    method StuffDefaults()
      requires Sized() && AreTargets(attrs, targets[..])
      modifies targets
      ensures targets[..] == Defaults(attrs, old(targets[..]))
    {
      var k := 0;
      while k < |attrs|
        invariant 0 <= k <= |attrs|
        invariant AreTargets(attrs, targets[..])
        invariant forall m :: 0 <= m < k ==> targets[m] == Defaults(attrs, old(targets[..]))[m]
        invariant forall m :: k <= m < |attrs| ==> targets[m] == old(targets[m])
      {
        targets[k] := Default(attrs[k].kind, targets[k]);
        k := k + 1;
      }
    }

    method FindAttr() returns (k: nat)
      requires Sized() && pattr <= JSON_ATTR_MAX
      ensures k == Find(attrs, attrbuf[..pattr], 0)
    {
      k := 0;
      while k < |attrs| && attrs[k].name != attrbuf[..pattr]
        invariant 0 <= k <= |attrs|
        invariant Find(attrs, attrbuf[..pattr], 0) == Find(attrs, attrbuf[..pattr], k)
      {
        k := k + 1;
      }
    }

    /** Up to four hexadecimal digits, and the low byte of their value. */
    method ReadHex(text: string, cp: nat) returns (n: nat, u: nat)
      requires cp <= |text|
      ensures n == 4 <==> HasHex(text, cp)
      ensures n == 4 ==> u % 256 == HexByte(text, cp) as int
    {
      n, u := 0, 0;
      while n < 4 && cp + n < |text| && IsHex(text[cp + n])
        invariant 0 <= n <= 4 && cp + n <= |text|
        invariant n >= 1 ==> IsHex(text[cp])
        invariant n >= 2 ==> IsHex(text[cp + 1])
        invariant n >= 3 ==> IsHex(text[cp + 2])
        invariant n >= 4 ==> IsHex(text[cp + 3])
        invariant n == 0 ==> u == 0
        invariant n == 1 ==> u == HexDigit(text[cp])
        invariant n == 2 ==> u == 16 * HexDigit(text[cp]) + HexDigit(text[cp + 1])
        invariant n == 3 ==> u == 256 * HexDigit(text[cp]) + 16 * HexDigit(text[cp + 1]) + HexDigit(text[cp + 2])
        invariant n == 4 ==> u == 4096 * HexDigit(text[cp]) + 256 * HexDigit(text[cp + 1])
                                  + 16 * HexDigit(text[cp + 2]) + HexDigit(text[cp + 3])
      {
        u := 16 * u + HexDigit(text[cp + n]);
        n := n + 1;
      }
    }

    // ---------- One method for each state of the loop ----------

    method OnInit(c: char, ghost cp: nat) returns (error: nat)
      requires Valid() && state.Init?
      modifies `state
      ensures Valid() && var s := JsonModel.OnInit(c, cp, old(Value()));
              if error != 0 then s == Stop(error, targets[..]) else s == Go(cp + 1, Value())
    {
      error := 0;
      if IsSpace(c) {
      } else if c == '{' {
        state := AwaitAttr;
      } else {
        error := ERR_OBSTART;
      }
    }

    method OnAwaitAttr(c: char, ghost cp: nat) returns (error: nat)
      requires Valid() && state.AwaitAttr?
      modifies `state, `pattr
      ensures Valid() && var s := JsonModel.OnAwaitAttr(c, cp, old(Value()));
              if error != 0 then s == Stop(error, targets[..]) else s == Go(cp + 1, Value())
    {
      error := 0;
      if IsSpace(c) || c == '}' {
      } else if c == '"' {
        state := InAttr;
        pattr := 0;
      } else {
        error := ERR_ATTRSTART;
      }
    }

    method OnInAttr(c: char, ghost cp: nat) returns (error: nat)
      requires Valid() && state.InAttr?
      modifies `state, `pattr, `cursor, `maxlen, `pval, attrbuf
      ensures Valid() && var s := JsonModel.OnInAttr(attrs, c, cp, old(Value()));
              if error != 0 then s == Stop(error, targets[..]) else s == Go(cp + 1, Value())
    {
      error := 0;
      if c == '"' {
        attrbuf[pattr] := '\0';
        var k := FindAttr();
        if k == |attrs| {
          error := ERR_BADATTR;
          return;
        }
        cursor := k;
        state := AwaitValue;
        if attrs[cursor].kind.Text? {
          maxlen := attrs[cursor].kind.len - 1;
        }
        pval := 0;
      } else if pattr >= JSON_ATTR_MAX - 1 {
        error := ERR_ATTRLEN;
      } else {
        attrbuf[pattr] := c;
        pattr := pattr + 1;
        assert attrbuf[..pattr] == old(attrbuf[..pattr]) + [c];
      }
    }

    method OnAwaitValue(c: char, ghost cp: nat) returns (error: nat)
      requires Valid() && state.AwaitValue?
      modifies `state, `valueQuoted, `pval, valbuf
      ensures Valid() && var s := JsonModel.OnAwaitValue(c, cp, old(Value()));
              if error != 0 then s == Stop(error, targets[..]) else s == Go(cp + 1, Value())
    {
      error := 0;
      if IsSpace(c) || c == ':' {
      } else if c == '[' || c == '{' {
        error := ERR_NOARRAY;
      } else if c == '"' {
        valueQuoted := true;
        state := InString;
        pval := 0;
      } else {
        valueQuoted := false;
        state := InToken;
        valbuf[0] := c;
        pval := 1;
      }
    }

    method OnInString(c: char, ghost cp: nat) returns (error: nat)
      requires Valid() && state.InString?
      modifies `state, `pval, valbuf
      ensures Valid() && var s := JsonModel.OnInString(c, cp, old(Value()));
              if error != 0 then s == Stop(error, targets[..]) else s == Go(cp + 1, Value())
    {
      error := 0;
      if c == '\\' {
        state := InEscape;
      } else if c == '"' {
        valbuf[pval] := '\0';
        state := PostVal;
      } else if pval > JSON_VAL_MAX - 1 || pval > maxlen {
        error := ERR_STRLONG;
      } else {
        valbuf[pval] := c;
        pval := pval + 1;
      }
    }

    method OnInEscape(text: string, cp: nat) returns (next: nat, error: nat)
      requires Valid() && state.InEscape? && cp < |text|
      modifies `state, `pval, valbuf
      ensures Valid() && var s := JsonModel.OnInEscape(text, cp, old(Value()));
              if error != 0 then s == Stop(error, targets[..]) else s == Go(next, Value())
    {
      next, error := cp, 0;
      if pval > JSON_VAL_MAX - 1 || pval > maxlen {
        error := ERR_STRLONG;
        return;
      }
      if text[cp] == 'u' {
        var n, u := ReadHex(text, cp + 1);
        if n != 4 {
          error := ERR_BADSTRING;
          return;
        }
        valbuf[pval] := (u % 256) as char;
        next := cp + 5;
      } else {
        valbuf[pval] := Unescaped(text[cp]);
        next := cp + 1;
      }
      pval := pval + 1;
      state := InString;
    }

    method OnInToken(c: char, cp: nat) returns (next: nat, error: nat)
      requires Valid() && state.InToken?
      modifies `state, `pval, valbuf
      ensures Valid() && var s := JsonModel.OnInToken(c, cp, old(Value()));
              if error != 0 then s == Stop(error, targets[..]) else s == Go(next, Value())
    {
      next, error := cp + 1, 0;
      if IsSpace(c) || c == ',' || c == '}' {
        valbuf[pval] := '\0';
        state := PostVal;
        if c == '}' || c == ',' {
          next := cp;
        }
      } else if pval > JSON_VAL_MAX - 1 {
        error := ERR_TOKLONG;
      } else {
        valbuf[pval] := c;
        pval := pval + 1;
      }
    }

    method SkipWhite(text: string, cp: nat) returns (k: nat)
      requires cp <= |text|
      ensures k == SkipSpaces(text, cp)
    {
      k := cp;
      while k < |text| && IsSpace(text[k])
        invariant cp <= k <= |text|
        invariant SkipSpaces(text, cp) == SkipSpaces(text, k)
      {
        k := k + 1;
      }
    }

    /** Try to seek forward for a matching entry of the same name. */
    method SeekType(value: string)
      requires Sized() && pattr <= JSON_ATTR_MAX && cursor < |attrs|
      modifies `cursor
      ensures cursor == Seek(attrs, old(cursor), attrbuf[..pattr], valueQuoted, value)
    {
      while !Matches(attrs[cursor].kind, valueQuoted, value)
            && cursor + 1 < |attrs| && attrs[cursor + 1].name == attrbuf[..pattr]
        invariant cursor < |attrs|
        invariant Seek(attrs, cursor, attrbuf[..pattr], valueQuoted, value) ==
                  Seek(attrs, old(cursor), attrbuf[..pattr], valueQuoted, value)
        decreases |attrs| - cursor
      {
        cursor := cursor + 1;
      }
    }

    /** Convert and store the collected value, as a C string, at the target. */
    method StoreValue(value: string)
      requires Sized() && AreTargets(attrs, targets[..]) && cursor < |attrs|
      modifies targets
      ensures targets[..] == old(targets[..])[cursor := Stored(attrs[cursor].kind, old(targets[cursor]), value)]
    {
      match attrs[cursor].kind
      case Integer => targets[cursor] := Number(Atoi(value));
      case Boolean => targets[cursor] := Truth(value == "true" || IsNonzero(value));
      case Text(len) =>
        var cl := len - 1;
        var cleared := Zeros(cl) + targets[cursor].chars[cl..];
        var vl := if |value| < cl then |value| else cl;
        assert cleared[vl..] == Zeros(cl - vl) + targets[cursor].chars[cl..];
        assert value[..vl] + cleared[vl..] == Fitted(value, cl) + targets[cursor].chars[cl..];
        targets[cursor] := Memory(value[..vl] + cleared[vl..]);
    }

    method OnPostVal(text: string, cp: nat) returns (next: nat, status: nat, done: bool)
      requires Valid() && state.PostVal? && cp < |text|
      modifies `state, `cursor, targets
      ensures var s := JsonModel.OnPostVal(attrs, text, cp, old(Value()));
              if done then s == Stop(status, targets[..]) else status == 0 && Valid() && s == Go(next, Value())
    {
      hide Stored, Seek, SkipSpaces, IsSpace, Matches, IsTarget, CString;
      done, status := true, 0;
      next := SkipWhite(text, cp);
      CStringTerminated(valbuf[..], pval);
      var value := CString(valbuf[..]);
      SeekType(value);
      status := StoreError(attrs[cursor].kind, valueQuoted);
      if status != 0 {
        return;
      }
      StoreValue(value);
      if next < |text| && text[next] == ',' {
        state := AwaitAttr;
        next, done := next + 1, false;
      } else if !(next < |text| && text[next] == '}') {
        status := ERR_BADTRAIL;
      }
    }

    /** One turn of the loop: the switch on the state. */
    method Turn(text: string, cp: nat) returns (next: nat, status: nat, done: bool)
      requires Valid() && cp < |text|
      modifies this, attrbuf, valbuf, targets
      ensures var s := Step(attrs, text, cp, old(Value()));
              if done then s == Stop(status, targets[..]) else Valid() && s == Go(next, Value())
    {
      hide JsonModel.OnInit, JsonModel.OnAwaitAttr, JsonModel.OnInAttr, JsonModel.OnAwaitValue;
      hide JsonModel.OnInString, JsonModel.OnInEscape, JsonModel.OnInToken, JsonModel.OnPostVal;
      next, status, done := cp + 1, 0, false;
      match state {
      case Init => status := OnInit(text[cp], cp);
      case AwaitAttr => status := OnAwaitAttr(text[cp], cp);
      case InAttr => status := OnInAttr(text[cp], cp);
      case AwaitValue => status := OnAwaitValue(text[cp], cp);
      case InString => status := OnInString(text[cp], cp);
      case InEscape => next, status := OnInEscape(text, cp);
      case InToken => next, status := OnInToken(text[cp], cp);
      case PostVal => next, status, done := OnPostVal(text, cp);
      }
      done := done || status != 0;
    }

    /** Read one object from a text. */
    method ReadObject(text: string) returns (status: nat)
      requires Sized() && AreTargets(attrs, targets[..])
      modifies this, attrbuf, valbuf, targets
      ensures var o := Read(attrs, text, old(targets[..]));
              status == o.status && targets[..] == o.fields
    {
      hide Step, Ready, ReadFrom;
      StuffDefaults();
      state, pattr, pval, valueQuoted, cursor, maxlen := Init, 0, 0, false, 0, 0;
      var cp, done := 0, false;
      assert Value() == Start(attrs, old(targets[..]));
      ghost var whole := ReadFrom(attrs, text, 0, Value());
      while cp < |text|
        invariant 0 <= cp <= |text| && Valid()
        invariant ReadFrom(attrs, text, cp, Value()) == whole
        decreases Rank(text, cp, Value())
      {
        Next(attrs, text, cp, Value());
        cp, status, done := Turn(text, cp);
        if done {
          return;
        }
      }
      AtEnd(attrs, text, Value());
      status := if state.Init? then ERR_EMPTY else 0;
    }
  }

  lemma {:induction false} CStringTerminated(chars: string, n: nat)
    requires n < |chars| && chars[n] == '\0'
    ensures CString(chars) == CString(chars[..n])
  {
    if n > 0 && chars[0] != '\0' {
      CStringTerminated(chars[1..], n - 1);
      assert chars[1..][..n - 1] == chars[..n][1..];
    }
  }
}
