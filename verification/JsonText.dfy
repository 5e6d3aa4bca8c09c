/**
 The printed text of src/application.rs read back by the grammar of RFC 8259 (sections 2 to 7, without insignificant
 white space): a value prints to a text that stands for that value and for no other.
 */
module JsonText {
  import opened Mux
  import opened Json

  // ---------- reading ----------

  datatype Parsed<T> = Read(value: T, rest: seq<bv8>) | Unreadable

  function Digit(b: bv8): Option<bv8> {
    if 0x30 <= b <= 0x39 then Some(b - 0x30) else if 0x61 <= b <= 0x66 then Some(b - 0x57) else None
  }

  /** What the letter after a backslash stands for. */
  function Unescaped(b: bv8): Option<bv8> {
    if b == 0x22 || b == 0x5c || b == 0x2f then Some(b)
    else if b == 0x62 then Some(0x08)
    else if b == 0x66 then Some(0x0c)
    else if b == 0x6e then Some(0x0a)
    else if b == 0x72 then Some(0x0d)
    else if b == 0x74 then Some(0x09)
    else None
  }

  function Prepend(b: bv8, p: Parsed<seq<bv8>>): Parsed<seq<bv8>> {
    if p.Read? then Read([b] + p.value, p.rest) else Unreadable
  }

  /** A string, after its opening quotation mark; escapes beyond a byte are not needed. */
  function ReadString(text: seq<bv8>): (r: Parsed<seq<bv8>>)
    ensures r.Read? ==> |r.rest| < |text|
    decreases |text|
  {
    if text == [] || text[0] < 0x20 then Unreadable
    else if text[0] == 0x22 then Read([], text[1..])
    else if text[0] != 0x5c then Prepend(text[0], ReadString(text[1..]))
    else if |text| >= 6 && text[1..4] == [0x75, 0x30, 0x30] && Digit(text[4]).Some? && Digit(text[5]).Some? then
      Prepend((Digit(text[4]).value << 4) | Digit(text[5]).value, ReadString(text[6..]))
    else if |text| >= 2 && Unescaped(text[1]).Some? then Prepend(Unescaped(text[1]).value, ReadString(text[2..]))
    else Unreadable
  }

  /** How many bytes of a number there are. */
  function NumberLength(text: seq<bv8>): (n: nat)
    ensures n <= |text| && forall i :: 0 <= i < n ==> NumberByte(text[i])
    ensures n < |text| ==> !NumberByte(text[n])
  {
    if text == [] || !NumberByte(text[0]) then 0 else 1 + NumberLength(text[1..])
  }

  predicate Begins(text: seq<bv8>, word: seq<bv8>) {
    |word| <= |text| && text[..|word|] == word
  }

  function ReadValue(text: seq<bv8>): (r: Parsed<Value>)
    ensures r.Read? ==> |r.rest| < |text|
    decreases |text|, 1
  {
    if text == [] then Unreadable
    else if Begins(text, [0x6e, 0x75, 0x6c, 0x6c]) then Read(Null, text[4..])
    else if Begins(text, [0x74, 0x72, 0x75, 0x65]) then Read(Bool(true), text[4..])
    else if Begins(text, [0x66, 0x61, 0x6c, 0x73, 0x65]) then Read(Bool(false), text[5..])
    else if NumberByte(text[0]) then Read(Number(text[..NumberLength(text)]), text[NumberLength(text)..])
    else if text[0] == 0x22 then
      match ReadString(text[1..])
      case Read(s, rest) => Read(Str(s), rest)
      case Unreadable => Unreadable
    else if Begins(text, [0x5b, 0x5d]) then Read(Array([]), text[2..])
    else if text[0] == 0x5b then
      match ReadItems(text[1..])
      case Read(items, rest) => Read(Array(items), rest)
      case Unreadable => Unreadable
    else if Begins(text, [0x7b, 0x7d]) then Read(Object([]), text[2..])
    else if text[0] == 0x7b then
      match ReadFields(text[1..])
      case Read(fields, rest) => Read(Object(fields), rest)
      case Unreadable => Unreadable
    else Unreadable
  }

  /** The items of an array, up to its closing bracket. */
  function ReadItems(text: seq<bv8>): (r: Parsed<seq<Value>>)
    ensures r.Read? ==> |r.rest| < |text|
    decreases |text|, 2
  {
    match ReadValue(text)
    case Unreadable => Unreadable
    case Read(v, rest) =>
      if rest != [] && rest[0] == 0x5d then Read([v], rest[1..])
      else if rest != [] && rest[0] == 0x2c then
        match ReadItems(rest[1..])
        case Read(items, after) => Read([v] + items, after)
        case Unreadable => Unreadable
      else Unreadable
  }

  function ReadField(text: seq<bv8>): (r: Parsed<Field>)
    ensures r.Read? ==> |r.rest| < |text|
    decreases |text|, 2
  {
    if text == [] || text[0] != 0x22 then Unreadable
    else
      match ReadString(text[1..])
      case Unreadable => Unreadable
      case Read(key, rest) =>
        if rest == [] || rest[0] != 0x3a then Unreadable
        else
          match ReadValue(rest[1..])
          case Read(v, after) => Read(Field(key, v), after)
          case Unreadable => Unreadable
  }

  function ReadFields(text: seq<bv8>): (r: Parsed<seq<Field>>)
    ensures r.Read? ==> |r.rest| < |text|
    decreases |text|, 3
  {
    match ReadField(text)
    case Unreadable => Unreadable
    case Read(f, rest) =>
      if rest != [] && rest[0] == 0x7d then Read([f], rest[1..])
      else if rest != [] && rest[0] == 0x2c then
        match ReadFields(rest[1..])
        case Read(fields, after) => Read([f] + fields, after)
        case Unreadable => Unreadable
      else Unreadable
  }

  // ---------- strings ----------

  lemma ControlDigits(b: bv8)
    requires b < 0x20
    ensures Digit(HexDigit(b >> 4)).Some? && Digit(HexDigit(b & 0xf)).Some?
    ensures (Digit(HexDigit(b >> 4)).value << 4) | Digit(HexDigit(b & 0xf)).value == b
    ensures b >> 4 < 16 && b & 0xf < 16
  {
    HexDigits(b);
  }

  lemma ReadControl(b: bv8, hi: bv8, lo: bv8, tail: seq<bv8>)
    requires Digit(hi).Some? && Digit(lo).Some? && (Digit(hi).value << 4) | Digit(lo).value == b
    ensures ReadString([0x5c, 0x75, 0x30, 0x30, hi, lo] + tail) == Prepend(b, ReadString(tail))
  {
    hide Digit;
    hide Unescaped;
    var text := [0x5c, 0x75, 0x30, 0x30, hi, lo] + tail;
    assert text[6..] == tail && text[1..4] == [0x75, 0x30, 0x30];
  }

  lemma ReadPair(letter: bv8, b: bv8, tail: seq<bv8>)
    requires Unescaped(letter) == Some(b)
    ensures ReadString([0x5c, letter] + tail) == Prepend(b, ReadString(tail))
  {
    hide Digit;
    var text := [0x5c, letter] + tail;
    assert text[2..] == tail && text[1] == letter && letter != 0x75;
    assert |text| >= 6 ==> text[1..4][0] == letter;
    hide Unescaped;
  }

  lemma ReadPlain(b: bv8, tail: seq<bv8>)
    requires b >= 0x20 && b != 0x22 && b != 0x5c
    ensures ReadString([b] + tail) == Prepend(b, ReadString(tail))
  {
    hide Digit;
    hide Unescaped;
    assert ([b] + tail)[1..] == tail;
  }

  /** An escaped byte is read as that byte. */
  lemma ReadEscapedByte(b: bv8, tail: seq<bv8>)
    ensures ReadString(EscapeByte(b) + tail) == Prepend(b, ReadString(tail))
  {
    hide ReadString;
    var e := EscapeByte(b);
    if |e| == 6 {
      ControlDigits(b);
      ReadControl(b, HexDigit(b >> 4), HexDigit(b & 0xf), tail);
    } else if |e| == 2 {
      ReadPair(e[1], b, tail);
    } else {
      ReadPlain(b, tail);
    }
  }

  lemma {:induction false} ReadEscaped(s: seq<bv8>, rest: seq<bv8>)
    ensures ReadString(Escape(s) + ([0x22] + rest)) == Read(s, rest)
  {
    hide EscapeByte;
    if s == [] {
      assert Escape(s) + ([0x22] + rest) == [0x22] + rest;
      EmptyString(rest);
    } else {
      var tail := Escape(s[1..]) + ([0x22] + rest);
      assert Escape(s) + ([0x22] + rest) == EscapeByte(s[0]) + tail;
      ReadEscapedByte(s[0], tail);
      ReadEscaped(s[1..], rest);
      assert [s[0]] + s[1..] == s;
    }
  }

  lemma EmptyString(rest: seq<bv8>)
    ensures ReadString([0x22] + rest) == Read([], rest)
  {
  }

  lemma ReadPrintedString(s: seq<bv8>, rest: seq<bv8>)
    ensures var text := PrintString(s) + rest;
            text[0] == 0x22 && ReadString(text[1..]) == Read(s, rest)
  {
    hide Escape;
    hide ReadString;
    ReadEscaped(s, rest);
    assert (PrintString(s) + rest)[1..] == Escape(s) + ([0x22] + rest);
  }

  // ---------- values ----------

  /** What may follow a value inside a text. */
  predicate Ends(rest: seq<bv8>) {
    rest == [] || rest[0] == 0x2c || rest[0] == 0x5d || rest[0] == 0x7d
  }

  lemma {:induction false} WholeNumber(digits: seq<bv8>, rest: seq<bv8>)
    requires (forall i :: 0 <= i < |digits| ==> NumberByte(digits[i])) && Ends(rest)
    ensures NumberLength(digits + rest) == |digits|
  {
    if digits == [] {
      assert digits + rest == rest;
    } else {
      assert (digits + rest)[1..] == digits[1..] + rest;
      WholeNumber(digits[1..], rest);
    }
  }

  lemma OtherWord(text: seq<bv8>, word: seq<bv8>)
    requires text != [] && word != [] && text[0] != word[0]
    ensures !Begins(text, word)
  {
  }

  lemma ReadScalar(v: Value, rest: seq<bv8>)
    requires v.Null? || v.Bool?
    ensures ReadValue(Print(v) + rest) == Read(v, rest)
  {
    var word := Print(v);
    var text := word + rest;
    assert text[|word|..] == rest && text[..|word|] == word;
    if !v.Null? {
      OtherWord(text, [0x6e, 0x75, 0x6c, 0x6c]);
    }
    if v == Bool(false) {
      OtherWord(text, [0x74, 0x72, 0x75, 0x65]);
    }
    hide ReadItems;
    hide ReadFields;
    hide ReadString;
  }

  lemma ReadNumber(v: Value, rest: seq<bv8>)
    requires v.Number? && Ends(rest)
    ensures ReadValue(Print(v) + rest) == Read(v, rest)
  {
    var text := v.digits + rest;
    WholeNumber(v.digits, rest);
    assert text[|v.digits|..] == rest && text[..|v.digits|] == v.digits;
    assert text[0] == v.digits[0] && NumberByte(text[0]);
    OtherWord(text, [0x6e, 0x75, 0x6c, 0x6c]);
    OtherWord(text, [0x74, 0x72, 0x75, 0x65]);
    OtherWord(text, [0x66, 0x61, 0x6c, 0x73, 0x65]);
    hide Begins;
    hide NumberLength;
    hide ReadItems;
    hide ReadFields;
    hide ReadString;
  }

  lemma ReadStr(v: Value, rest: seq<bv8>)
    requires v.Str?
    ensures ReadValue(Print(v) + rest) == Read(v, rest)
  {
    hide Escape;
    hide ReadString;
    ReadPrintedString(v.text, rest);
  }

  /** The first byte of a printed value is not that of a closing bracket. */
  lemma PrintedBegins(v: Value)
    ensures Print(v) != [] && Print(v)[0] != 0x5d && Print(v)[0] != 0x7d && Print(v)[0] != 0x2c
  {
    hide PrintItems;
    hide PrintFields;
    hide Escape;
    if v.Number? {
      assert NumberByte(v.digits[0]);
    }
  }

  lemma {:induction false} ReadPrinted(v: Value, rest: seq<bv8>)
    requires Ends(rest)
    ensures ReadValue(Print(v) + rest) == Read(v, rest)
    decreases v, 1
  {
    match v {
      case Array(items) =>
        if items == [] {
          assert Print(v) + rest == [0x5b, 0x5d] + rest;
          NoItems(rest);
        } else {
          ReadPrintedItems(items, rest);
          OpenArray(items, rest);
        }
      case Object(fields) =>
        if fields == [] {
          assert Print(v) + rest == [0x7b, 0x7d] + rest;
          NoFields(rest);
        } else {
          ReadPrintedFields(fields, rest);
          OpenObject(fields, rest);
        }
      case Number(_) => ReadNumber(v, rest);
      case Str(_) => ReadStr(v, rest);
      case _ => ReadScalar(v, rest);
    }
  }

  lemma NoItems(rest: seq<bv8>)
    ensures ReadValue([0x5b, 0x5d] + rest) == Read(Array([]), rest)
  {
    var text := [0x5b, 0x5d] + rest;
    assert text[..2] == [0x5b, 0x5d] && text[2..] == rest;
  }

  lemma NoFields(rest: seq<bv8>)
    ensures ReadValue([0x7b, 0x7d] + rest) == Read(Object([]), rest)
  {
    var text := [0x7b, 0x7d] + rest;
    assert text[..2] == [0x7b, 0x7d] && text[2..] == rest;
  }

  lemma ItemsBegin(items: seq<Value>)
    requires items != []
    ensures PrintItems(items) != [] && PrintItems(items)[0] != 0x5d
  {
    hide Print;
    PrintedBegins(items[0]);
  }

  lemma OpenArray(items: seq<Value>, rest: seq<bv8>)
    requires items != [] && ReadItems(PrintItems(items) + ([0x5d] + rest)) == Read(items, rest)
    ensures ReadValue(Print(Array(items)) + rest) == Read(Array(items), rest)
  {
    hide ReadItems;
    ItemsBegin(items);
    hide PrintItems;
    var text := Print(Array(items)) + rest;
    assert text[1..] == PrintItems(items) + ([0x5d] + rest);
    assert text[0] == 0x5b && text[1] == PrintItems(items)[0];
    assert text[..2][1] != 0x5d;
  }

  lemma FieldsBegin(fields: seq<Field>)
    requires fields != []
    ensures PrintFields(fields) != [] && PrintFields(fields)[0] == 0x22
  {
    hide Print;
    hide Escape;
  }

  lemma OpenObject(fields: seq<Field>, rest: seq<bv8>)
    requires fields != [] && ReadFields(PrintFields(fields) + ([0x7d] + rest)) == Read(fields, rest)
    ensures ReadValue(Print(Object(fields)) + rest) == Read(Object(fields), rest)
  {
    hide ReadFields;
    FieldsBegin(fields);
    hide PrintFields;
    var text := Print(Object(fields)) + rest;
    assert text[1..] == PrintFields(fields) + ([0x7d] + rest);
    assert text[0] == 0x7b && text[1] == PrintFields(fields)[0];
    assert text[..2][1] != 0x7d;
  }

  lemma {:induction false} ReadPrintedItems(items: seq<Value>, rest: seq<bv8>)
    requires items != []
    ensures ReadItems(PrintItems(items) + ([0x5d] + rest)) == Read(items, rest)
    decreases items, 0
  {
    hide Print;
    hide ReadValue;
    if |items| == 1 {
      ReadPrinted(items[0], [0x5d] + rest);
      assert items == [items[0]];
    } else {
      var more := PrintItems(items[1..]) + ([0x5d] + rest);
      assert PrintItems(items) + ([0x5d] + rest) == Print(items[0]) + ([0x2c] + more);
      ReadPrinted(items[0], [0x2c] + more);
      ReadPrintedItems(items[1..], rest);
      assert items == [items[0]] + items[1..];
    }
  }

  lemma {:induction false} ReadPrintedField(f: Field, rest: seq<bv8>)
    requires Ends(rest)
    ensures ReadField(PrintField(f) + rest) == Read(f, rest)
    decreases f, 1
  {
    hide Print;
    hide PrintString;
    hide ReadValue;
    hide ReadString;
    var after := [0x3a] + (Print(f.value) + rest);
    assert PrintField(f) + rest == PrintString(f.key) + after;
    ReadPrintedString(f.key, after);
    assert after[1..] == Print(f.value) + rest;
    ReadPrinted(f.value, rest);
  }

  lemma {:induction false} ReadPrintedFields(fields: seq<Field>, rest: seq<bv8>)
    requires fields != []
    ensures ReadFields(PrintFields(fields) + ([0x7d] + rest)) == Read(fields, rest)
    decreases fields, 0
  {
    hide PrintField;
    hide ReadField;
    if |fields| == 1 {
      ReadPrintedField(fields[0], [0x7d] + rest);
      assert fields == [fields[0]];
    } else {
      var more := PrintFields(fields[1..]) + ([0x7d] + rest);
      assert PrintFields(fields) + ([0x7d] + rest) == PrintField(fields[0]) + ([0x2c] + more);
      ReadPrintedField(fields[0], [0x2c] + more);
      ReadPrintedFields(fields[1..], rest);
      assert fields == [fields[0]] + fields[1..];
    }
  }

  /** Reading a printed value gives that value, and nothing is left. */
  lemma PrintIsRead(v: Value)
    ensures ReadValue(Print(v)) == Read(v, [])
  {
    hide Print;
    hide ReadValue;
    ReadPrinted(v, []);
    assert Print(v) + [] == Print(v);
  }

  /** So two values never share a text. */
  lemma PrintIsInjective(v: Value, w: Value)
    requires Print(v) == Print(w)
    ensures v == w
  {
    hide Print;
    hide ReadValue;
    PrintIsRead(v);
    PrintIsRead(w);
  }

  /** The text of a command is an object with its method and its parameters, under these names. */
  lemma CommandIsRead(c: Command)
    ensures ReadValue(Print(AsObject(c)))
         == Read(Object([Field([0x6d, 0x65, 0x74, 0x68, 0x6f, 0x64], Str(c.method_)),
                         Field([0x70, 0x61, 0x72, 0x61, 0x6d, 0x73], c.params)]), [])
  {
    hide Print;
    hide ReadValue;
    PrintIsRead(AsObject(c));
  }

  // ---------- texts that were not printed ----------

  /** A raw NUL is only passed over right behind a backslash. */
  lemma {:induction false} NoRawNul(text: seq<bv8>, inString: bool, depth: nat, i: nat)
    requires Scan(text, inString, depth) && i < |text| && text[i] == 0
    ensures i > 0 && text[i - 1] == 0x5c
    decreases |text|
  {
    if inString && text[0] == 0x5c {
      if i > 1 {
        NoRawNul(text[2..], inString, depth, i - 2);
      }
    } else {
      var inside := if text[0] == 0x22 then !inString else inString;
      if i > 0 {
        var next := if inside then depth
                    else if Opens(text[0]) then depth + 1
                    else if Closes(text[0]) then depth - 1 else depth;
        NoRawNul(text[1..], inside, next, i - 1);
      }
    }
  }

  /** Opening brackets and braces, less the closing ones. */
  function Balance(text: seq<bv8>): int {
    if text == [] then 0
    else
      (if text[0] == 0x5b || text[0] == 0x7b then 1 else if text[0] == 0x5d || text[0] == 0x7d then -1 else 0)
      + Balance(text[1..])
  }

  /** At most 18 containers are open anywhere, and in the end none. */
  predicate Balanced(text: seq<bv8>, depth: int) {
    && (forall k :: 0 <= k <= |text| ==> 0 <= depth + Balance(text[..k]) <= 18)
    && depth + Balance(text) == 0
  }

  lemma BalanceStep(text: seq<bv8>, k: nat)
    requires text != [] && k < |text|
    ensures Balance(text[..k + 1]) == Balance(text[..1]) + Balance(text[1..][..k])
    ensures Balance(text) == Balance(text[..1]) + Balance(text[1..])
  {
    assert text[..k + 1][1..] == text[1..][..k];
    assert text[..1][1..] == [];
  }

  lemma BalancedStep(text: seq<bv8>, depth: int)
    requires text != [] && 0 <= depth <= 18
    ensures Balanced(text, depth) <==>
              0 <= depth + Balance(text[..1]) <= 18 && Balanced(text[1..], depth + Balance(text[..1]))
  {
    hide Balance;
    var rest, next := text[1..], depth + Balance(text[..1]);
    BalanceStep(text, 0);
    if Balanced(text, depth) {
      forall k | 0 <= k <= |rest| ensures 0 <= next + Balance(rest[..k]) <= 18 {
        BalanceStep(text, k);
      }
    }
    if 0 <= next <= 18 && Balanced(rest, next) {
      forall k | 0 <= k <= |text| ensures 0 <= depth + Balance(text[..k]) <= 18 {
        if k > 0 {
          BalanceStep(text, k - 1);
        } else {
          NoBalance(text);
        }
      }
    }
  }

  lemma NoBalance(text: seq<bv8>)
    ensures Balance(text[..0]) == 0
  {
  }

  /** Without strings, the firmware's scan accepts exactly the balanced texts. */
  lemma {:induction false} ScanIsBalance(text: seq<bv8>, depth: nat)
    requires 0x22 !in text && 0 !in text && depth <= 18
    ensures Scan(text, false, depth) <==> Balanced(text, depth)
    decreases |text|
  {
    hide Balanced;
    if text == [] {
      EmptyBalance(depth);
    } else {
      BalancedStep(text, depth);
      FirstBalance(text);
      var next := depth + Balance(text[..1]);
      if 0 <= next <= 18 {
        ScanIsBalance(text[1..], next);
      }
      hide Balance;
    }
  }

  lemma EmptyBalance(depth: nat)
    requires depth <= 18
    ensures Balanced([], depth) <==> depth == 0
  {
    var none: seq<bv8> := [];
    assert none[..0] == none;
  }

  lemma FirstBalance(text: seq<bv8>)
    requires text != []
    ensures Balance(text[..1]) == if Opens(text[0]) then 1 else if Closes(text[0]) then -1 else 0
  {
    assert text[..1][1..] == [];
  }
}
