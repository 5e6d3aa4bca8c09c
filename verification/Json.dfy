/**
 The JSON profile shared by host and firmware: Command::payload of src/application.rs prints a command, and
 compatible_json_text of idf_remote.c scans the printed bytes once before parsing them.
 */
module Json {
  import opened Mux

  predicate NumberByte(b: bv8) {
    0x30 <= b <= 0x39 || b == 0x2b || b == 0x2d || b == 0x2e || b == 0x45 || b == 0x65
  }

  /** The printed text of a number. */
  type NumberText = s: seq<bv8> | s != [] && forall i :: 0 <= i < |s| ==> NumberByte(s[i]) witness [0x30]

  /** Strings are their UTF-8 bytes; a number is its printed text. */
  datatype Value =
    | Null
    | Bool(b: bool)
    | Number(digits: NumberText)
    | Str(text: seq<bv8>)
    | Array(items: seq<Value>)
    | Object(fields: seq<Field>)

  datatype Field = Field(key: seq<bv8>, value: Value)

  datatype Command = Command(method_: seq<bv8>, params: Value)

  const QUOTE: bv8 := 0x22
  const BACKSLASH: bv8 := 0x5c
  const MAX_DEPTH := 18

  // ---------- printing ----------

  function HexDigit(n: bv8): bv8
    requires n < 16
  {
    if n < 10 then 0x30 + n else 0x57 + n
  }

  function EscapeByte(b: bv8): seq<bv8> {
    if b == QUOTE || b == BACKSLASH then [BACKSLASH, b]
    else if b == 0x08 then [BACKSLASH, 0x62]
    else if b == 0x0c then [BACKSLASH, 0x66]
    else if b == 0x0a then [BACKSLASH, 0x6e]
    else if b == 0x0d then [BACKSLASH, 0x72]
    else if b == 0x09 then [BACKSLASH, 0x74]
    else if b < 0x20 then [BACKSLASH, 0x75, 0x30, 0x30, HexDigit(b >> 4), HexDigit(b & 0xf)]
    else [b]
  }

  function Escape(s: seq<bv8>): seq<bv8> {
    if s == [] then [] else EscapeByte(s[0]) + Escape(s[1..])
  }

  function PrintString(s: seq<bv8>): seq<bv8> {
    [QUOTE] + (Escape(s) + [QUOTE])
  }

  const NULL_TEXT: seq<bv8> := [0x6e, 0x75, 0x6c, 0x6c]
  const TRUE_TEXT: seq<bv8> := [0x74, 0x72, 0x75, 0x65]
  const FALSE_TEXT: seq<bv8> := [0x66, 0x61, 0x6c, 0x73, 0x65]

  /** The compact form that serde_json::to_vec writes. */
  function Print(v: Value): seq<bv8>
    decreases v, 1
  {
    match v
    case Null => NULL_TEXT
    case Bool(b) => if b then TRUE_TEXT else FALSE_TEXT
    case Number(digits) => digits
    case Str(text) => PrintString(text)
    case Array(items) => [0x5b] + (PrintItems(items) + [0x5d])
    case Object(fields) => [0x7b] + (PrintFields(fields) + [0x7d])
  }

  function PrintItems(items: seq<Value>): seq<bv8>
    decreases items, 0
  {
    if items == [] then []
    else if |items| == 1 then Print(items[0])
    else Print(items[0]) + ([0x2c] + PrintItems(items[1..]))
  }

  function PrintField(f: Field): seq<bv8>
    decreases f, 1
  {
    PrintString(f.key) + ([0x3a] + Print(f.value))
  }

  function PrintFields(fields: seq<Field>): seq<bv8>
    decreases fields, 0
  {
    if fields == [] then []
    else if |fields| == 1 then PrintField(fields[0])
    else PrintField(fields[0]) + ([0x2c] + PrintFields(fields[1..]))
  }

  const METHOD_KEY: seq<bv8> := [0x6d, 0x65, 0x74, 0x68, 0x6f, 0x64]
  const PARAMS_KEY: seq<bv8> := [0x70, 0x61, 0x72, 0x61, 0x6d, 0x73]

  function AsObject(c: Command): Value {
    Object([Field(METHOD_KEY, Str(c.method_)), Field(PARAMS_KEY, c.params)])
  }

  // ---------- the host's checks ----------

  /** validate_json; inRange is the 53-bit check on a number. */
  predicate Validate(v: Value, depth: nat, inRange: seq<bv8> -> bool)
    decreases v
  {
    && depth <= 16
    && match v
       case Null => true
       case Bool(_) => true
       case Number(digits) => inRange(digits)
       case Str(text) => 0 !in text
       case Array(items) => forall i :: 0 <= i < |items| ==> Validate(items[i], depth + 1, inRange)
       case Object(fields) =>
         forall i :: 0 <= i < |fields| ==> 0 !in fields[i].key && Validate(fields[i].value, depth + 1, inRange)
  }

  /** Command::payload. */
  function Payload(c: Command, inRange: seq<bv8> -> bool): (r: Option<seq<bv8>>)
    ensures r.Some? ==> |r.value| <= MAX_PAYLOAD
  {
    if c.method_ == [] || |c.method_| > 64 then None
    else if 0 in c.method_ then None
    else if !Validate(c.params, 0, inRange) then None
    else
      var bytes := Print(AsObject(c));
      if |bytes| > MAX_PAYLOAD then None else Some(bytes)
  }

  // ---------- the firmware's scanner ----------

  const NUL_ESCAPE: seq<bv8> := [0x75, 0x30, 0x30, 0x30, 0x30]

  predicate Opens(b: bv8) {
    b == 0x5b || b == 0x7b
  }

  predicate Closes(b: bv8) {
    b == 0x5d || b == 0x7d
  }

  /** What the rest of the scan returns, given the two scanner variables. */
  predicate Scan(text: seq<bv8>, inString: bool, depth: nat)
    decreases |text|
  {
    if text == [] then !inString && depth == 0
    else if text[0] == 0 then false
    else if inString && text[0] == BACKSLASH then
      if NUL_ESCAPE <= text[1..] then false
      else if |text| == 1 then Scan([], inString, depth)
      else Scan(text[2..], inString, depth)
    else
      var inside := if text[0] == QUOTE then !inString else inString;
      if inside then Scan(text[1..], true, depth)
      else if Opens(text[0]) then depth < MAX_DEPTH && Scan(text[1..], false, depth + 1)
      else if Closes(text[0]) then depth > 0 && Scan(text[1..], false, depth - 1)
      else Scan(text[1..], false, depth)
  }

  /** compatible_json_text. */
  method CompatibleJsonText(text: array<bv8>, size: nat) returns (ok: bool)
    requires size <= text.Length
    ensures ok == Scan(text[..size], false, 0)
  {
    var inString := false;
    var depth := 0;
    var i := 0;
    while i < size
      invariant 0 <= depth
      invariant Scan(text[..size], false, 0) ==
                if i <= size then Scan(text[i..size], inString, depth) else Scan([], inString, depth)
      decreases size - i
    {
      ghost var rest := text[i..size];
      assert rest[0] == text[i] && rest[1..] == text[i + 1..size];
      if text[i] == 0 {
        return false;
      }
      if inString && text[i] == 0x5c {
        assert i + 2 <= size ==> rest[2..] == text[i + 2..size];
        assert i + 5 < size ==> rest[1..][..5] == text[i + 1..i + 6];
        if i + 5 < size && text[i + 1..i + 6] == [0x75, 0x30, 0x30, 0x30, 0x30] {
          return false;
        }
        i := i + 2;
        continue;
      }
      if text[i] == 0x22 {
        inString := !inString;
      }
      if !inString {
        if text[i] == 0x5b || text[i] == 0x7b {
          depth := depth + 1;
          if depth > 18 {
            return false;
          }
        }
        if text[i] == 0x5d || text[i] == 0x7d {
          if depth == 0 {
            return false;
          }
          depth := depth - 1;
        }
      }
      i := i + 1;
    }
    return !inString && depth == 0;
  }

  // ---------- what the scanner accepts ----------

  /** No NUL in any string or key, and no container deeper than MAX_DEPTH when depth of them are open. */
  predicate Fits(v: Value, depth: nat)
    decreases v
  {
    match v
    case Null => true
    case Bool(_) => true
    case Number(_) => true
    case Str(text) => 0 !in text
    case Array(items) => depth < MAX_DEPTH && forall i :: 0 <= i < |items| ==> Fits(items[i], depth + 1)
    case Object(fields) =>
      depth < MAX_DEPTH
      && forall i :: 0 <= i < |fields| ==> 0 !in fields[i].key && Fits(fields[i].value, depth + 1)
  }

  predicate FieldFits(f: Field, depth: nat) {
    0 !in f.key && Fits(f.value, depth)
  }

  /** A byte that neither ends the scan nor changes its variables, outside strings. */
  predicate Neutral(b: bv8) {
    b != 0 && b != QUOTE && !Opens(b) && !Closes(b)
  }

  lemma ScanNeutral(b: bv8, rest: seq<bv8>, depth: nat)
    requires Neutral(b)
    ensures Scan([b] + rest, false, depth) == Scan(rest, false, depth)
  {
    assert ([b] + rest)[1..] == rest;
  }

  lemma {:induction false} ScanNeutrals(s: seq<bv8>, rest: seq<bv8>, depth: nat)
    requires forall i :: 0 <= i < |s| ==> Neutral(s[i])
    ensures Scan(s + rest, false, depth) == Scan(rest, false, depth)
  {
    if s == [] {
      assert s + rest == rest;
    } else {
      assert s + rest == [s[0]] + (s[1..] + rest);
      ScanNeutral(s[0], s[1..] + rest, depth);
      ScanNeutrals(s[1..], rest, depth);
    }
  }

  lemma ScanStringByte(b: bv8, rest: seq<bv8>, depth: nat)
    requires b != 0 && b != QUOTE && b != BACKSLASH
    ensures Scan([b] + rest, true, depth) == Scan(rest, true, depth)
  {
    assert ([b] + rest)[1..] == rest;
  }

  lemma ScanEscapePair(b: bv8, rest: seq<bv8>, depth: nat)
    requires !(NUL_ESCAPE <= [b] + rest)
    ensures Scan([BACKSLASH, b] + rest, true, depth) == Scan(rest, true, depth)
  {
    var text := [BACKSLASH, b] + rest;
    assert text[1..] == [b] + rest && text[2..] == rest;
  }

  lemma HexDigits(b: bv8)
    requires b < 0x20
    ensures HexDigit(b >> 4) == 0x30 || HexDigit(b >> 4) == 0x31
    ensures HexDigit(b >> 4) == 0x30 && HexDigit(b & 0xf) == 0x30 <==> b == 0
    ensures HexDigit(b & 0xf) != 0 && HexDigit(b & 0xf) != QUOTE && HexDigit(b & 0xf) != BACKSLASH
  {
    assert b >> 4 == 0 || b >> 4 == 1;
  }

  lemma ScanNulEscape(rest: seq<bv8>, depth: nat)
    ensures !Scan([BACKSLASH] + (NUL_ESCAPE + rest), true, depth)
  {
    assert ([BACKSLASH] + (NUL_ESCAPE + rest))[1..] == NUL_ESCAPE + rest;
  }

  lemma ScanControlDigits(hi: bv8, lo: bv8, rest: seq<bv8>, depth: nat)
    requires hi == 0x30 || hi == 0x31
    requires lo != 0 && lo != QUOTE && lo != BACKSLASH
    requires hi != 0x30 || lo != 0x30
    ensures Scan([BACKSLASH, 0x75, 0x30, 0x30, hi, lo] + rest, true, depth) == Scan(rest, true, depth)
  {
    hide Scan;
    var digits := [0x30] + ([0x30] + ([hi] + ([lo] + rest)));
    assert ([0x75] + digits)[3] == hi && ([0x75] + digits)[4] == lo;
    assert [BACKSLASH, 0x75, 0x30, 0x30, hi, lo] + rest == [BACKSLASH, 0x75] + digits;
    ScanEscapePair(0x75, digits, depth);
    ScanStringByte(0x30, [0x30] + ([hi] + ([lo] + rest)), depth);
    ScanStringByte(0x30, [hi] + ([lo] + rest), depth);
    ScanStringByte(hi, [lo] + rest, depth);
    ScanStringByte(lo, rest, depth);
  }

  lemma ScanControl(b: bv8, rest: seq<bv8>, depth: nat)
    requires b < 0x20
    ensures Scan([BACKSLASH, 0x75, 0x30, 0x30, HexDigit(b >> 4), HexDigit(b & 0xf)] + rest, true, depth)
         == (b != 0 && Scan(rest, true, depth))
  {
    hide HexDigit;
    hide Scan;
    HexDigits(b);
    var hi, lo := HexDigit(b >> 4), HexDigit(b & 0xf);
    if b == 0 {
      assert [BACKSLASH, 0x75, 0x30, 0x30, hi, lo] + rest == [BACKSLASH] + (NUL_ESCAPE + rest);
      ScanNulEscape(rest, depth);
    } else {
      ScanControlDigits(hi, lo, rest, depth);
    }
  }

  /** Escaping protects string and depth tracking: a string byte is passed over, unless it is NUL. */
  lemma ScanEscapedByte(b: bv8, rest: seq<bv8>, depth: nat)
    ensures Scan(EscapeByte(b) + rest, true, depth) == (b != 0 && Scan(rest, true, depth))
  {
    if b == QUOTE || b == BACKSLASH || b == 0x08 || b == 0x0c || b == 0x0a || b == 0x0d || b == 0x09 {
      var e := EscapeByte(b);
      assert ([e[1]] + rest)[0] != 0x75;
      ScanEscapePair(e[1], rest, depth);
      assert e == [BACKSLASH, e[1]];
    } else if b < 0x20 {
      ScanControl(b, rest, depth);
    } else {
      ScanStringByte(b, rest, depth);
    }
  }

  lemma ScanQuote(inString: bool, rest: seq<bv8>, depth: nat)
    ensures Scan([QUOTE] + rest, inString, depth) == Scan(rest, !inString, depth)
  {
    assert ([QUOTE] + rest)[1..] == rest;
  }

  lemma {:induction false} ScanEscaped(s: seq<bv8>, rest: seq<bv8>, depth: nat)
    ensures Scan(Escape(s) + rest, true, depth) == (0 !in s && Scan(rest, true, depth))
  {
    hide EscapeByte;
    hide Scan;
    if s == [] {
      assert Escape(s) + rest == rest;
    } else {
      assert Escape(s) + rest == EscapeByte(s[0]) + (Escape(s[1..]) + rest);
      ScanEscapedByte(s[0], Escape(s[1..]) + rest, depth);
      ScanEscaped(s[1..], rest, depth);
      assert 0 in s <==> s[0] == 0 || 0 in s[1..];
    }
  }

  lemma ScanPrintedString(s: seq<bv8>, rest: seq<bv8>, depth: nat)
    ensures Scan(PrintString(s) + rest, false, depth) == (0 !in s && Scan(rest, false, depth))
  {
    hide Escape;
    hide Scan;
    assert PrintString(s) + rest == [QUOTE] + (Escape(s) + ([QUOTE] + rest));
    ScanQuote(false, Escape(s) + ([QUOTE] + rest), depth);
    ScanEscaped(s, [QUOTE] + rest, depth);
    ScanQuote(true, rest, depth);
  }

  lemma ScanOpen(b: bv8, rest: seq<bv8>, depth: nat)
    requires Opens(b)
    ensures Scan([b] + rest, false, depth) == (depth < MAX_DEPTH && Scan(rest, false, depth + 1))
  {
    assert ([b] + rest)[1..] == rest;
  }

  lemma ScanClose(b: bv8, rest: seq<bv8>, depth: nat)
    requires Closes(b)
    ensures Scan([b] + rest, false, depth + 1) == Scan(rest, false, depth)
  {
    assert ([b] + rest)[1..] == rest;
  }

  /** The scanner walks over a printed value exactly when the value fits at the current depth. */
  lemma {:induction false} ScanPrinted(v: Value, rest: seq<bv8>, depth: nat)
    ensures Scan(Print(v) + rest, false, depth) == (Fits(v, depth) && Scan(rest, false, depth))
    decreases v, 1
  {
    hide Scan;
    match v {
      case Null =>
        ScanNeutrals(NULL_TEXT, rest, depth);
      case Bool(b) =>
        ScanNeutrals(if b then TRUE_TEXT else FALSE_TEXT, rest, depth);
      case Number(digits) =>
        assert forall i :: 0 <= i < |digits| ==> NumberByte(digits[i]);
        ScanNeutrals(digits, rest, depth);
      case Str(text) =>
        ScanPrintedString(text, rest, depth);
      case Array(items) =>
        var inner := PrintItems(items) + ([0x5d] + rest);
        assert Print(v) + rest == [0x5b] + inner;
        ScanOpen(0x5b, inner, depth);
        if depth < MAX_DEPTH {
          ScanItems(items, [0x5d] + rest, depth + 1);
          ScanClose(0x5d, rest, depth);
        }
      case Object(fields) =>
        var inner := PrintFields(fields) + ([0x7d] + rest);
        assert Print(v) + rest == [0x7b] + inner;
        ScanOpen(0x7b, inner, depth);
        if depth < MAX_DEPTH {
          ScanFields(fields, [0x7d] + rest, depth + 1);
          ScanClose(0x7d, rest, depth);
        }
    }
  }

  lemma {:induction false} ScanItems(items: seq<Value>, rest: seq<bv8>, depth: nat)
    ensures Scan(PrintItems(items) + rest, false, depth)
         == ((forall i :: 0 <= i < |items| ==> Fits(items[i], depth)) && Scan(rest, false, depth))
    decreases items, 0
  {
    hide Scan;
    hide Fits;
    if items == [] {
      assert PrintItems(items) + rest == rest;
    } else if |items| == 1 {
      ScanPrinted(items[0], rest, depth);
    } else {
      var tail := PrintItems(items[1..]) + rest;
      assert PrintItems(items) + rest == Print(items[0]) + ([0x2c] + tail);
      ScanPrinted(items[0], [0x2c] + tail, depth);
      ScanNeutral(0x2c, tail, depth);
      ScanItems(items[1..], rest, depth);
      assert forall i :: 1 <= i < |items| ==> items[i] == items[1..][i - 1];
    }
  }

  lemma {:induction false} ScanField(f: Field, rest: seq<bv8>, depth: nat)
    ensures Scan(PrintField(f) + rest, false, depth)
         == (FieldFits(f, depth) && Scan(rest, false, depth))
    decreases f, 1
  {
    hide Scan;
    hide Fits;
    var tail := Print(f.value) + rest;
    assert PrintField(f) + rest == PrintString(f.key) + ([0x3a] + tail);
    ScanPrintedString(f.key, [0x3a] + tail, depth);
    ScanNeutral(0x3a, tail, depth);
    ScanPrinted(f.value, rest, depth);
  }

  lemma {:induction false} ScanFields(fields: seq<Field>, rest: seq<bv8>, depth: nat)
    ensures Scan(PrintFields(fields) + rest, false, depth)
         == ((forall i :: 0 <= i < |fields| ==> FieldFits(fields[i], depth)) && Scan(rest, false, depth))
    decreases fields, 0
  {
    hide Scan;
    hide FieldFits;
    hide PrintField;
    if fields == [] {
      assert PrintFields(fields) + rest == rest;
    } else if |fields| == 1 {
      ScanField(fields[0], rest, depth);
    } else {
      var tail := PrintFields(fields[1..]) + rest;
      assert PrintFields(fields) + rest == PrintField(fields[0]) + ([0x2c] + tail);
      ScanField(fields[0], [0x2c] + tail, depth);
      ScanNeutral(0x2c, tail, depth);
      ScanFields(fields[1..], rest, depth);
      assert forall i :: 1 <= i < |fields| ==> fields[i] == fields[1..][i - 1];
    }
  }

  /** The firmware accepts a printed value exactly when it has no NUL and never more than MAX_DEPTH open containers. */
  lemma FirmwareAccepts(v: Value)
    ensures Scan(Print(v), false, 0) <==> Fits(v, 0)
  {
    hide Fits;
    ScanPrinted(v, [], 0);
    assert Print(v) + [] == Print(v);
  }

  lemma {:induction false} ValidFits(v: Value, depth: nat, inRange: seq<bv8> -> bool)
    requires Validate(v, depth, inRange)
    ensures Fits(v, depth + 1)
    decreases v
  {
    match v {
      case Array(items) =>
        forall i | 0 <= i < |items| ensures Fits(items[i], depth + 2) {
          ValidFits(items[i], depth + 1, inRange);
        }
      case Object(fields) =>
        forall i | 0 <= i < |fields| ensures 0 !in fields[i].key && Fits(fields[i].value, depth + 2) {
          ValidFits(fields[i].value, depth + 1, inRange);
        }
      case _ =>
    }
  }

  /** Host and firmware agree: every command the host sends passes the firmware's scan. */
  lemma CommandsPassTheScan(c: Command, inRange: seq<bv8> -> bool)
    requires Payload(c, inRange).Some?
    ensures Scan(Payload(c, inRange).value, false, 0)
  {
    hide Print;
    hide Scan;
    ValidFits(c.params, 0, inRange);
    var o := AsObject(c);
    assert o.fields[0] == Field(METHOD_KEY, Str(c.method_)) && o.fields[1] == Field(PARAMS_KEY, c.params);
    assert Fits(o.fields[0].value, 1) && Fits(o.fields[1].value, 1);
    assert Fits(o, 0);
    FirmwareAccepts(o);
  }

  // ---------- the two depth limits ----------

  function Max(a: nat, b: nat): nat {
    if a < b then b else a
  }

  /** How deep containers are nested; a scalar is none. */
  function Containers(v: Value): nat
    decreases v, 1
  {
    match v
    case Array(items) => 1 + ItemContainers(items)
    case Object(fields) => 1 + FieldContainers(fields)
    case _ => 0
  }

  function ItemContainers(items: seq<Value>): nat
    decreases items, 0
  {
    if items == [] then 0 else Max(Containers(items[0]), ItemContainers(items[1..]))
  }

  function FieldContainers(fields: seq<Field>): nat
    decreases fields, 0
  {
    if fields == [] then 0 else Max(Containers(fields[0].value), FieldContainers(fields[1..]))
  }

  /** How deep values are nested; a scalar is one level. */
  function Levels(v: Value): nat
    decreases v, 1
  {
    match v
    case Array(items) => 1 + ItemLevels(items)
    case Object(fields) => 1 + FieldLevels(fields)
    case _ => 1
  }

  function ItemLevels(items: seq<Value>): nat
    decreases items, 0
  {
    if items == [] then 0 else Max(Levels(items[0]), ItemLevels(items[1..]))
  }

  function FieldLevels(fields: seq<Field>): nat
    decreases fields, 0
  {
    if fields == [] then 0 else Max(Levels(fields[0].value), FieldLevels(fields[1..]))
  }

  lemma {:induction false} ItemContainersBound(items: seq<Value>, n: nat)
    ensures ItemContainers(items) <= n <==> forall i :: 0 <= i < |items| ==> Containers(items[i]) <= n
  {
    hide Containers;
    if items != [] {
      ItemContainersBound(items[1..], n);
      assert forall i :: 1 <= i < |items| ==> items[i] == items[1..][i - 1];
    }
  }

  lemma {:induction false} FieldContainersBound(fields: seq<Field>, n: nat)
    ensures FieldContainers(fields) <= n <==> forall i :: 0 <= i < |fields| ==> Containers(fields[i].value) <= n
  {
    hide Containers;
    if fields != [] {
      FieldContainersBound(fields[1..], n);
      assert forall i :: 1 <= i < |fields| ==> fields[i] == fields[1..][i - 1];
    }
  }

  lemma {:induction false} ItemLevelsBound(items: seq<Value>, n: nat)
    ensures ItemLevels(items) <= n <==> forall i :: 0 <= i < |items| ==> Levels(items[i]) <= n
  {
    hide Levels;
    if items != [] {
      ItemLevelsBound(items[1..], n);
      assert forall i :: 1 <= i < |items| ==> items[i] == items[1..][i - 1];
    }
  }

  lemma {:induction false} FieldLevelsBound(fields: seq<Field>, n: nat)
    ensures FieldLevels(fields) <= n <==> forall i :: 0 <= i < |fields| ==> Levels(fields[i].value) <= n
  {
    hide Levels;
    if fields != [] {
      FieldLevelsBound(fields[1..], n);
      assert forall i :: 1 <= i < |fields| ==> fields[i] == fields[1..][i - 1];
    }
  }

  /** No string and no key contains NUL. */
  predicate NoNul(v: Value)
    decreases v
  {
    match v
    case Str(text) => 0 !in text
    case Array(items) => forall i :: 0 <= i < |items| ==> NoNul(items[i])
    case Object(fields) => forall i :: 0 <= i < |fields| ==> 0 !in fields[i].key && NoNul(fields[i].value)
    case _ => true
  }

  predicate AllInRange(v: Value, inRange: seq<bv8> -> bool)
    decreases v
  {
    match v
    case Number(digits) => inRange(digits)
    case Array(items) => forall i :: 0 <= i < |items| ==> AllInRange(items[i], inRange)
    case Object(fields) => forall i :: 0 <= i < |fields| ==> AllInRange(fields[i].value, inRange)
    case _ => true
  }

  lemma {:induction false} FitsMeans(v: Value, depth: nat)
    requires depth <= MAX_DEPTH
    ensures Fits(v, depth) <==> depth + Containers(v) <= MAX_DEPTH && NoNul(v)
    decreases v
  {
    match v {
      case Array(items) =>
        if depth < MAX_DEPTH {
          forall i | 0 <= i < |items|
            ensures Fits(items[i], depth + 1) <==> depth + 1 + Containers(items[i]) <= MAX_DEPTH && NoNul(items[i])
          {
            FitsMeans(items[i], depth + 1);
          }
          ItemContainersBound(items, MAX_DEPTH - depth - 1);
        }
      case Object(fields) =>
        if depth < MAX_DEPTH {
          forall i | 0 <= i < |fields|
            ensures Fits(fields[i].value, depth + 1)
               <==> depth + 1 + Containers(fields[i].value) <= MAX_DEPTH && NoNul(fields[i].value)
          {
            FitsMeans(fields[i].value, depth + 1);
          }
          FieldContainersBound(fields, MAX_DEPTH - depth - 1);
        }
      case _ =>
    }
  }

  lemma {:induction false} ValidateMeans(v: Value, depth: nat, inRange: seq<bv8> -> bool)
    ensures Validate(v, depth, inRange) <==> depth + Levels(v) <= 17 && NoNul(v) && AllInRange(v, inRange)
    decreases v
  {
    match v {
      case Array(items) =>
        if depth <= 16 {
          forall i | 0 <= i < |items|
            ensures Validate(items[i], depth + 1, inRange)
               <==> depth + 1 + Levels(items[i]) <= 17 && NoNul(items[i]) && AllInRange(items[i], inRange)
          {
            ValidateMeans(items[i], depth + 1, inRange);
          }
          ItemLevelsBound(items, 16 - depth);
        }
      case Object(fields) =>
        if depth <= 16 {
          forall i | 0 <= i < |fields|
            ensures Validate(fields[i].value, depth + 1, inRange)
               <==> depth + 1 + Levels(fields[i].value) <= 17
                    && NoNul(fields[i].value) && AllInRange(fields[i].value, inRange)
          {
            ValidateMeans(fields[i].value, depth + 1, inRange);
          }
          FieldLevelsBound(fields, 16 - depth);
        }
      case _ =>
    }
  }

  /** validate_json accepts exactly the values of at most 17 levels without NUL and with all numbers in range. */
  lemma HostAccepts(v: Value, inRange: seq<bv8> -> bool)
    ensures Validate(v, 0, inRange) <==> Levels(v) <= 17 && NoNul(v) && AllInRange(v, inRange)
  {
    ValidateMeans(v, 0, inRange);
  }

  /** The firmware accepts a command's text exactly for params of at most 17 nested containers without NUL. */
  lemma FirmwareAcceptsCommand(c: Command)
    requires 0 !in c.method_
    ensures Scan(Print(AsObject(c)), false, 0) <==> Containers(c.params) <= 17 && NoNul(c.params)
  {
    hide Print;
    hide Scan;
    hide Containers;
    hide NoNul;
    var o := AsObject(c);
    FirmwareAccepts(o);
    FitsMeans(c.params, 1);
    assert o.fields[0] == Field(METHOD_KEY, Str(c.method_)) && o.fields[1] == Field(PARAMS_KEY, c.params);
    assert Fits(o.fields[0].value, 1);
    assert Fits(o, 0) <==> Fits(o.fields[1].value, 1);
  }

  lemma {:induction false} LevelsAboveContainers(v: Value)
    ensures Containers(v) <= Levels(v) <= Containers(v) + 1
    decreases v
  {
    match v {
      case Array(items) =>
        forall i | 0 <= i < |items| ensures Containers(items[i]) <= Levels(items[i]) <= Containers(items[i]) + 1 {
          LevelsAboveContainers(items[i]);
        }
        ItemLevelsBound(items, ItemContainers(items) + 1);
        ItemContainersBound(items, ItemContainers(items));
        ItemContainersBound(items, ItemLevels(items));
        ItemLevelsBound(items, ItemLevels(items));
      case Object(fields) =>
        forall i | 0 <= i < |fields|
          ensures Containers(fields[i].value) <= Levels(fields[i].value) <= Containers(fields[i].value) + 1
        {
          LevelsAboveContainers(fields[i].value);
        }
        FieldLevelsBound(fields, FieldContainers(fields) + 1);
        FieldContainersBound(fields, FieldContainers(fields));
        FieldContainersBound(fields, FieldLevels(fields));
        FieldLevelsBound(fields, FieldLevels(fields));
      case _ =>
    }
  }

  /**
   Where the two limits differ: beyond what the host sends, the firmware accepts exactly 17 nested containers with
   a scalar in the innermost ones, and numbers it still has to check after parsing.
   */
  lemma DepthLimitsDiffer(c: Command, inRange: seq<bv8> -> bool)
    requires 0 !in c.method_
    ensures Scan(Print(AsObject(c)), false, 0) && !Validate(c.params, 0, inRange) <==>
              && NoNul(c.params) && Containers(c.params) <= 17
              && ((Containers(c.params) == 17 && Levels(c.params) == 18) || !AllInRange(c.params, inRange))
    ensures Validate(c.params, 0, inRange) ==> Scan(Print(AsObject(c)), false, 0)
  {
    hide Print;
    hide Scan;
    hide Validate;
    hide Containers;
    hide Levels;
    hide NoNul;
    hide AllInRange;
    HostAccepts(c.params, inRange);
    FirmwareAcceptsCommand(c);
    LevelsAboveContainers(c.params);
  }

  /** A command the host sends: a method of 1 to 64 bytes, admissible parameters, and a text of at most 1024 bytes. */
  predicate Sendable(c: Command, inRange: seq<bv8> -> bool) {
    && 1 <= |c.method_| <= 64 && 0 !in c.method_
    && Levels(c.params) <= 17 && NoNul(c.params) && AllInRange(c.params, inRange)
    && |Print(AsObject(c))| <= 1024
  }

  /** Command::payload gives the text of exactly the commands that can be sent. */
  lemma PayloadExactly(c: Command, inRange: seq<bv8> -> bool)
    ensures Payload(c, inRange) == if Sendable(c, inRange) then Some(Print(AsObject(c))) else None
  {
    hide Print;
    hide Levels;
    hide NoNul;
    hide AllInRange;
    HostAccepts(c.params, inRange);
  }

  // ---------- cut texts ----------

  lemma CommandHasText(c: Command)
    ensures Print(AsObject(c)) != []
  {
    hide PrintFields;
  }

  /** Without a quote the scanner stays inside a string. */
  lemma {:induction false} StaysInString(text: seq<bv8>, depth: nat)
    requires QUOTE !in text
    ensures !Scan(text, true, depth)
    decreases |text|
  {
    if text != [] && text[0] != 0 {
      if text[0] != BACKSLASH {
        StaysInString(text[1..], depth);
      } else if |text| > 1 {
        StaysInString(text[2..], depth);
      }
    }
  }

  lemma CutEscape(b: bv8, k: nat, depth: nat)
    requires k < |EscapeByte(b)|
    ensures !Scan(EscapeByte(b)[..k], true, depth)
  {
    if b < 0x20 {
      HexDigits(b);
      ControlHighDigit(b);
    }
    hide HexDigit;
    StaysInString(EscapeByte(b)[..k], depth);
  }

  lemma ControlHighDigit(b: bv8)
    requires b < 0x20
    ensures HexDigit(b >> 4) != QUOTE
  {
    HexDigits(b);
  }

  lemma {:induction false} CutEscaped(s: seq<bv8>, k: nat, depth: nat)
    requires k <= |Escape(s)|
    ensures !Scan(Escape(s)[..k], true, depth)
  {
    hide Scan;
    hide EscapeByte;
    if s == [] {
      StaysInString([], depth);
      assert Escape(s)[..k] == [];
    } else {
      var first := EscapeByte(s[0]);
      if k < |first| {
        assert Escape(s)[..k] == first[..k];
        CutEscape(s[0], k, depth);
      } else {
        assert Escape(s)[..k] == first + Escape(s[1..])[..k - |first|];
        ScanEscapedByte(s[0], Escape(s[1..])[..k - |first|], depth);
        CutEscaped(s[1..], k - |first|, depth);
      }
    }
  }

  lemma ScanNothing(depth: nat)
    requires depth > 0
    ensures !Scan([], false, depth)
  {
  }

  lemma CutString(s: seq<bv8>, k: nat, depth: nat)
    requires k <= |PrintString(s)| && depth > 0
    ensures !Scan(PrintString(s)[..k], false, depth)
  {
    hide Scan;
    hide Escape;
    ScanNothing(depth);
    if k == |PrintString(s)| {
      assert PrintString(s)[..k] == PrintString(s) + [];
      ScanPrintedString(s, [], depth);
    } else if k > 0 {
      assert PrintString(s)[..k] == [QUOTE] + Escape(s)[..k - 1];
      ScanQuote(false, Escape(s)[..k - 1], depth);
      CutEscaped(s, k - 1, depth);
    } else {
      assert PrintString(s)[..k] == [];
    }
  }

  lemma CutNeutrals(s: seq<bv8>, k: nat, depth: nat)
    requires forall i :: 0 <= i < |s| ==> Neutral(s[i])
    requires k <= |s| && depth > 0
    ensures !Scan(s[..k], false, depth)
  {
    hide Scan;
    ScanNothing(depth);
    assert s[..k] == s[..k] + [];
    ScanNeutrals(s[..k], [], depth);
  }

  /** Inside a container no part of a value closes it. */
  lemma {:induction false} CutPrinted(v: Value, k: nat, depth: nat)
    requires k <= |Print(v)| && depth > 0
    ensures !Scan(Print(v)[..k], false, depth)
    decreases v, 1
  {
    hide Scan;
    ScanNothing(depth);
    match v {
      case Null => CutNeutrals(NULL_TEXT, k, depth);
      case Bool(b) => CutNeutrals(if b then TRUE_TEXT else FALSE_TEXT, k, depth);
      case Number(digits) =>
        assert forall i :: 0 <= i < |digits| ==> NumberByte(digits[i]);
        CutNeutrals(digits, k, depth);
      case Str(text) => CutString(text, k, depth);
      case Array(items) =>
        if k == |Print(v)| {
          CutNothing(v, depth);
        } else if k > 0 {
          assert Print(v)[..k] == [0x5b] + PrintItems(items)[..k - 1];
          ScanOpen(0x5b, PrintItems(items)[..k - 1], depth);
          CutItems(items, k - 1, depth + 1);
        } else {
          assert Print(v)[..k] == [];
        }
      case Object(fields) =>
        if k == |Print(v)| {
          CutNothing(v, depth);
        } else if k > 0 {
          assert Print(v)[..k] == [0x7b] + PrintFields(fields)[..k - 1];
          ScanOpen(0x7b, PrintFields(fields)[..k - 1], depth);
          CutFields(fields, k - 1, depth + 1);
        } else {
          assert Print(v)[..k] == [];
        }
    }
  }

  lemma CutNothing(v: Value, depth: nat)
    requires depth > 0
    ensures !Scan(Print(v)[..|Print(v)|], false, depth)
  {
    hide Scan;
    hide Print;
    ScanNothing(depth);
    assert Print(v)[..|Print(v)|] == Print(v) + [];
    ScanPrinted(v, [], depth);
  }

  lemma {:induction false} CutItems(items: seq<Value>, k: nat, depth: nat)
    requires k <= |PrintItems(items)| && depth > 0
    ensures !Scan(PrintItems(items)[..k], false, depth)
    decreases items, 0
  {
    hide Scan;
    hide Print;
    ScanNothing(depth);
    if items == [] {
      assert PrintItems(items)[..k] == [];
    } else {
      var first := Print(items[0]);
      if k <= |first| {
        assert PrintItems(items)[..k] == first[..k];
        CutPrinted(items[0], k, depth);
      } else {
        var j := k - |first| - 1;
        var tail := PrintItems(items[1..])[..j];
        assert PrintItems(items)[..k] == first + ([0x2c] + tail);
        ScanPrinted(items[0], [0x2c] + tail, depth);
        ScanNeutral(0x2c, tail, depth);
        CutItems(items[1..], j, depth);
      }
    }
  }

  lemma {:induction false} CutField(f: Field, k: nat, depth: nat)
    requires k <= |PrintField(f)| && depth > 0
    ensures !Scan(PrintField(f)[..k], false, depth)
    decreases f, 1
  {
    hide Scan;
    hide Print;
    hide PrintString;
    var first := PrintString(f.key);
    if k <= |first| {
      assert PrintField(f)[..k] == first[..k];
      CutString(f.key, k, depth);
    } else {
      var tail := Print(f.value)[..k - |first| - 1];
      assert PrintField(f)[..k] == first + ([0x3a] + tail);
      ScanPrintedString(f.key, [0x3a] + tail, depth);
      ScanNeutral(0x3a, tail, depth);
      CutPrinted(f.value, k - |first| - 1, depth);
    }
  }

  lemma {:induction false} CutFields(fields: seq<Field>, k: nat, depth: nat)
    requires k <= |PrintFields(fields)| && depth > 0
    ensures !Scan(PrintFields(fields)[..k], false, depth)
    decreases fields, 0
  {
    hide Scan;
    hide PrintField;
    ScanNothing(depth);
    if fields == [] {
      assert PrintFields(fields)[..k] == [];
    } else {
      var first := PrintField(fields[0]);
      if k <= |first| {
        assert PrintFields(fields)[..k] == first[..k];
        CutField(fields[0], k, depth);
      } else {
        var j := k - |first| - 1;
        var tail := PrintFields(fields[1..])[..j];
        assert PrintFields(fields)[..k] == first + ([0x2c] + tail);
        ScanField(fields[0], [0x2c] + tail, depth);
        ScanNeutral(0x2c, tail, depth);
        CutFields(fields[1..], j, depth);
      }
    }
  }

  /** A text of which the firmware accepts no proper, non-empty beginning. */
  predicate Unbroken(text: seq<bv8>) {
    forall k :: 0 < k < |text| ==> !Scan(text[..k], false, 0)
  }

  /** A command that was cut short never passes the firmware's scan. */
  lemma CutCommandsFail(c: Command)
    ensures Unbroken(Print(AsObject(c)))
  {
    hide Scan;
    var text := Print(AsObject(c));
    var fields := AsObject(c).fields;
    forall k | 0 < k < |text| ensures !Scan(text[..k], false, 0) {
      assert text[..k] == [0x7b] + PrintFields(fields)[..k - 1];
      ScanOpen(0x7b, PrintFields(fields)[..k - 1], 0);
      CutFields(fields, k - 1, 1);
    }
  }
}
