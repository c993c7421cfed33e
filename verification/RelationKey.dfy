/** The lookup key of a relation or primary key (orm/preload.go:1063-1274) and the check that bulk-update
    rows have different keys (orm/bulk_update.go:127-205). */
module RelationKey {
  import opened SqlValues

  type Byte = x: int | 0 <= x < 256

  const TWO_63 := 0x8000_0000_0000_0000
  const TWO_64 := 0x1_0000_0000_0000_0000

  type Word = x: int | 0 <= x < TWO_64

  /** One key component as the program holds it. A float is its bit pattern; a custom value is what its
      Valuer returns; NULL is a nil pointer, a nil byte slice or a Valuer that returns nil. */
  datatype Native =
    | Null
    | Bool(flag: bool)
    | Signed(number: int)
    | Unsigned(word: Word)
    | Float(bits: Word)
    | Text(text: seq<Byte>)
    | Bytes(bytes: seq<Byte>)
    | Time(seconds: int, nanos: Word)
  {
    predicate Valid() {
      && (Signed? ==> -TWO_63 <= number < TWO_63)
      && (Time? ==> -TWO_63 <= seconds < TWO_63)
      && (Text? ==> |text| < TWO_64)
      && (Bytes? ==> |bytes| < TWO_64)
    }
  }

  /** The comparable key: a kind letter, up to two words, and text. */
  datatype LookupKey = LookupKey(kind: char, first: Word, second: Word, text: seq<Byte>)

  // ---- one component ----

  /** uint64(current) for a signed number. */
  function Wrapped(n: int): Word {
    n % TWO_64
  }

  /** Both zeros are one key. */
  function ZeroAsOne(bits: Word): Word {
    if bits == TWO_63 then 0 else bits
  }

  function KeyOf(v: Native): (key: Option<LookupKey>)
    ensures key.None? <==> v == Null
  {
    match v
    case Null => None
    case Bool(flag) => Some(LookupKey('b', if flag then 1 else 0, 0, []))
    case Signed(n) => Some(LookupKey('i', Wrapped(n), 0, []))
    case Unsigned(n) => Some(LookupKey('u', n, 0, []))
    case Float(bits) => Some(LookupKey('f', ZeroAsOne(bits), 0, []))
    case Text(text) => Some(LookupKey('s', 0, 0, text))
    case Bytes(bytes) => Some(LookupKey('x', 0, 0, bytes))
    case Time(seconds, nanos) => Some(LookupKey('t', Wrapped(seconds), nanos, []))
  }

  /** The same component, taking both float zeros as one. */
  predicate Same(a: Native, b: Native) {
    if a.Float? && b.Float? then a.bits == b.bits || (a.bits in {0, TWO_63} && b.bits in {0, TWO_63}) else a == b
  }

  lemma WrappedInjective(m: int, n: int)
    requires -TWO_63 <= m < TWO_63 && -TWO_63 <= n < TWO_63
    ensures Wrapped(m) == Wrapped(n) <==> m == n
  {
    assert Wrapped(m) == if m < 0 then m + TWO_64 else m;
    assert Wrapped(n) == if n < 0 then n + TWO_64 else n;
  }

  lemma ComponentKeyExact(a: Native, b: Native)
    requires a.Valid() && b.Valid() && a != Null && b != Null
    ensures KeyOf(a) == KeyOf(b) <==> Same(a, b)
  {
    if a.Signed? && b.Signed? {
      WrappedInjective(a.number, b.number);
    } else if a.Time? && b.Time? {
      WrappedInjective(a.seconds, b.seconds);
    }
  }

  // ---- big-endian words ----

  function Power(width: nat): nat {
    if width == 0 then 1 else 256 * Power(width - 1)
  }

  function BigEndian(n: nat, width: nat): (s: seq<Byte>)
    ensures |s| == width
  {
    if width == 0 then [] else BigEndian(n / 256, width - 1) + [n % 256]
  }

  function Reading(s: seq<Byte>): nat {
    if |s| == 0 then 0 else Reading(s[..|s| - 1]) * 256 + s[|s| - 1]
  }

  lemma {:induction false} WordReads(n: nat, width: nat)
    requires n < Power(width)
    ensures Reading(BigEndian(n, width)) == n
  {
    if width > 0 {
      WordReads(n / 256, width - 1);
      var s := BigEndian(n, width);
      assert s[..|s| - 1] == BigEndian(n / 256, width - 1);
    }
  }

  lemma WordFits(n: Word)
    ensures n < Power(8)
  {
    assert Power(2) == 0x1_0000 by { assert Power(1) == 256; }
    assert Power(4) == 0x1_0000_0000 by { assert Power(3) == 0x100_0000; }
    assert Power(6) == 0x1_0000_0000_0000 by { assert Power(5) == 0x100_0000_0000; }
    assert Power(7) == 0x100_0000_0000_0000;
  }

  // ---- the composite encoding ----

  function KindByte(kind: char): Byte {
    if kind < 256 as char then kind as int else 0
  }

  predicate IsWordKind(kind: char) {
    kind == 'b' || kind == 'i' || kind == 'u' || kind == 'f'
  }

  predicate IsTextKind(kind: char) {
    kind == 's' || kind == 'x'
  }

  /** The keys that component encoding produces. */
  predicate Encodable(k: LookupKey) {
    if IsWordKind(k.kind) then k.second == 0 && k.text == []
    else if k.kind == 't' then k.text == []
    else IsTextKind(k.kind) && k.first == 0 && k.second == 0 && |k.text| < TWO_64
  }

  function Payload(k: LookupKey): seq<Byte> {
    if k.kind == 't' then BigEndian(k.first, 8) + BigEndian(k.second, 8)
    else if IsTextKind(k.kind) then BigEndian(|k.text|, 8) + k.text
    else BigEndian(k.first, 8)
  }

  function Encoded(k: LookupKey): seq<Byte> {
    [KindByte(k.kind)] + Payload(k)
  }

  function EncodedAll(ks: seq<LookupKey>): seq<Byte> {
    if |ks| == 0 then [] else EncodedAll(ks[..|ks| - 1]) + Encoded(ks[|ks| - 1])
  }

  /** Reads one component from the front. */
  function DecodeOne(s: seq<Byte>): Option<(LookupKey, seq<Byte>)> {
    if |s| < 9 then None
    else
      var kind, first := s[0] as char, Reading(s[1..9]);
      if first >= TWO_64 then None
      else if IsWordKind(kind) then Some((LookupKey(kind, first, 0, []), s[9..]))
      else if kind == 't' then
        if |s| < 17 || Reading(s[9..17]) >= TWO_64 then None else Some((LookupKey(kind, first, Reading(s[9..17]), []),
          s[17..]))
      else if IsTextKind(kind) && 9 + first <= |s| then Some((LookupKey(kind, 0, 0, s[9..9 + first]), s[9 + first..]))
      else None
  }

  lemma DecodesFront(k: LookupKey, rest: seq<Byte>)
    requires Encodable(k)
    ensures DecodeOne(Encoded(k) + rest) == Some((k, rest))
  {
    hide BigEndian, Reading, Power;
    var s := Encoded(k) + rest;
    assert s[0] as char == k.kind;
    if IsTextKind(k.kind) {
      WordFits(|k.text|);
      WordReads(|k.text|, 8);
      assert s[1..9] == BigEndian(|k.text|, 8);
      assert s[9..9 + |k.text|] == k.text && s[9 + |k.text|..] == rest;
    } else {
      WordFits(k.first);
      WordReads(k.first, 8);
      assert s[1..9] == BigEndian(k.first, 8);
      if k.kind == 't' {
        WordFits(k.second);
        WordReads(k.second, 8);
        assert s[9..17] == BigEndian(k.second, 8) && s[17..] == rest;
      } else {
        assert s[9..] == rest;
      }
    }
  }

  lemma {:induction false} EncodedFront(ks: seq<LookupKey>)
    requires |ks| > 0
    ensures EncodedAll(ks) == Encoded(ks[0]) + EncodedAll(ks[1..])
  {
    hide Encoded;
    if |ks| > 1 {
      EncodedFront(ks[..|ks| - 1]);
      assert ks[..|ks| - 1][1..] == ks[1..][..|ks[1..]| - 1];
    } else {
      assert EncodedAll(ks[..0]) == [] && EncodedAll(ks[1..]) == [];
    }
  }

  predicate AllEncodable(ks: seq<LookupKey>) {
    forall k <- ks :: Encodable(k)
  }

  /** The encoding of a tuple determines the tuple, whatever its length. */
  lemma {:induction false} EncodingInjective(a: seq<LookupKey>, b: seq<LookupKey>)
    requires AllEncodable(a) && AllEncodable(b) && EncodedAll(a) == EncodedAll(b)
    ensures a == b
  {
    hide Encoded, EncodedAll, DecodeOne;
    NothingEncoded(a);
    NothingEncoded(b);
    if |a| > 0 && |b| > 0 {
      EncodedFront(a);
      EncodedFront(b);
      assert a[0] in a && b[0] in b;
      DecodesFront(a[0], EncodedAll(a[1..]));
      DecodesFront(b[0], EncodedAll(b[1..]));
      assert (forall k <- a[1..] :: k in a) && (forall k <- b[1..] :: k in b);
      EncodingInjective(a[1..], b[1..]);
      assert a == [a[0]] + a[1..] && b == [b[0]] + b[1..];
    }
  }

  lemma NothingEncoded(ks: seq<LookupKey>)
    ensures EncodedAll(ks) == [] <==> ks == []
  {
  }

  // ---- the key of a tuple ----

  predicate TupleValid(values: seq<Native>) {
    forall v <- values :: v.Valid()
  }

  predicate HasNull(values: seq<Native>) {
    exists v <- values :: v == Null
  }

  function Components(values: seq<Native>): (ks: seq<LookupKey>)
    requires !HasNull(values)
    ensures |ks| == |values|
  {
    seq(|values|, i requires 0 <= i < |values| => assert values[i] in values; KeyOf(values[i]).value)
  }

  /** One column is its own key; more are encoded into a text. */
  function TupleKey(values: seq<Native>): LookupKey
    requires !HasNull(values)
  {
    if |values| == 1 then Components(values)[0] else LookupKey('c', 0, 0, EncodedAll(Components(values)))
  }

  predicate SameTuple(a: seq<Native>, b: seq<Native>) {
    |a| == |b| && forall i | 0 <= i < |a| :: Same(a[i], b[i])
  }

  /** Two key tuples get one lookup key exactly when they agree component by component. */
  lemma TupleKeyExact(a: seq<Native>, b: seq<Native>)
    requires TupleValid(a) && TupleValid(b) && !HasNull(a) && !HasNull(b) && |a| == |b| > 0
    ensures TupleKey(a) == TupleKey(b) <==> SameTuple(a, b)
  {
    hide KeyOf, EncodedAll, Same, Encodable;
    var ka, kb := Components(a), Components(b);
    forall i | 0 <= i < |a|
      ensures ka[i] == kb[i] <==> Same(a[i], b[i])
    {
      assert a[i] in a && b[i] in b;
      ComponentKeyExact(a[i], b[i]);
    }
    ComponentsEncodable(a);
    ComponentsEncodable(b);
    if EncodedAll(ka) == EncodedAll(kb) {
      EncodingInjective(ka, kb);
    }
    if SameTuple(a, b) {
      assert ka == kb;
    }
  }

  lemma ComponentsEncodable(values: seq<Native>)
    requires TupleValid(values) && !HasNull(values)
    ensures AllEncodable(Components(values))
  {
    var ks := Components(values);
    forall k <- ks
      ensures Encodable(k)
    {
      var i :| 0 <= i < |ks| && ks[i] == k;
      assert values[i] in values;
      ComponentEncodable(values[i]);
    }
  }

  lemma ComponentEncodable(v: Native)
    requires v.Valid() && v != Null
    ensures Encodable(KeyOf(v).value)
  {
  }

  /** Reads the key of a model; a NULL component means it has none. */
  method ModelKey(values: seq<Native>) returns (key: Option<LookupKey>)
    requires |values| > 0
    ensures key == if HasNull(values) then None else Some(TupleKey(values))
  {
    if |values| == 1 {
      key := KeyOf(values[0]);
      if values[0] == Null { assert values[0] in values; }
      return;
    }
    var buffer: seq<Byte> := [];
    for index := 0 to |values|
      invariant !HasNull(values[..index]) && buffer == EncodedAll(Components(values[..index]))
    {
      var component := KeyOf(values[index]);
      if component.None? {
        assert values[index] in values;
        return None;
      }
      ComponentsGrow(values, index);
      buffer := buffer + Encoded(component.value);
    }
    assert values[..|values|] == values;
    key := Some(LookupKey('c', 0, 0, buffer));
  }

  lemma ComponentsGrow(values: seq<Native>, index: nat)
    requires index < |values| && !HasNull(values[..index]) && values[index] != Null
    ensures !HasNull(values[..index + 1])
    ensures Components(values[..index + 1]) == Components(values[..index]) + [KeyOf(values[index]).value]
    ensures EncodedAll(Components(values[..index + 1]))
      == EncodedAll(Components(values[..index])) + Encoded(KeyOf(values[index]).value)
  {
    hide KeyOf, Encoded;
    var front := values[..index + 1];
    forall v <- front
      ensures v != Null
    {
      assert v in values[..index] || v == values[index];
    }
    var ks := Components(values[..index + 1]);
    assert ks[..index] == Components(values[..index]);
    assert ks == Components(values[..index]) + [KeyOf(values[index]).value];
  }

  // ---- distinct bulk-update keys ----

  predicate SameWidth(rows: seq<seq<Native>>) {
    forall i, j | 0 <= i < j < |rows| :: |rows[i]| == |rows[j]|
  }

  datatype KeyCheck = Accepted | NilKey(row: nat) | Repeated(row: nat, previous: nat)

  /** A key field of a row to update: a nil Go value, or a value held. A held value of a type with a Valuer may
      still be NULL to the database. */
  datatype KeyCell = Nil | Held(value: Native)

  predicate HasNil(row: seq<KeyCell>) {
    Nil in row
  }

  function Natives(row: seq<KeyCell>): (values: seq<Native>)
    ensures |values| == |row|
  {
    seq(|row|, i requires 0 <= i < |row| => if row[i] == Nil then Null else row[i].value)
  }

  function NativeRows(rows: seq<seq<KeyCell>>): (all: seq<seq<Native>>)
    ensures |all| == |rows|
  {
    seq(|rows|, i requires 0 <= i < |rows| => Natives(rows[i]))
  }

  /** Without a Valuer, only a nil Go value is NULL. */
  predicate Plain(row: seq<KeyCell>) {
    forall cell <- row :: cell != Held(Null)
  }

  /** Key columns without a Valuer, one kind of value to a column. */
  ghost predicate NativeKeys(rows: seq<seq<KeyCell>>, numeric: bool) {
    && (forall r <- rows :: Plain(r)) && (forall r <- NativeRows(rows) :: TupleValid(r) && |r| > 0)
    && SameWidth(NativeRows(rows)) && (numeric ==> OneNumericKind(NativeRows(rows)))
  }

  lemma NilIsNull(row: seq<KeyCell>)
    requires Plain(row)
    ensures HasNull(Natives(row)) <==> HasNil(row)
  {
    if HasNil(row) {
      var i :| 0 <= i < |row| && row[i] == Nil;
      assert Natives(row)[i] == Null && Null in Natives(row);
    }
    if HasNull(Natives(row)) {
      var i :| 0 <= i < |row| && Natives(row)[i] == Null;
      assert row[i] in row;
      assert row[i] == Nil;
    }
  }

  method FindsNil(row: seq<KeyCell>) returns (found: bool)
    ensures found <==> HasNil(row)
  {
    for index := 0 to |row|
      invariant forall i | 0 <= i < index :: row[i] != Nil
    {
      if row[index] == Nil {
        assert row[index] in row;
        return true;
      }
    }
    found := false;
  }

  /** The check before a bulk UPDATE. `known` is false when a key column goes through a Valuer: then only nil Go
      values are refused, whatever the Valuer returns. `numeric` is a single bool, integer or float key column,
      which needs no text. */
  method ValidateUpdateKeys(rows: seq<seq<KeyCell>>, known: bool, numeric: bool) returns (check: KeyCheck)
    requires known ==> NativeKeys(rows, numeric)
    ensures check == Accepted <==>
      (forall i | 0 <= i < |rows| :: !HasNil(rows[i])) &&
      (known ==> forall i, j | 0 <= i < j < |rows| :: !SameTuple(Natives(rows[i]), Natives(rows[j])))
    ensures check.NilKey? ==> check.row < |rows| && HasNil(rows[check.row])
    ensures check.Repeated? ==>
      known && check.previous < check.row < |rows| && SameTuple(Natives(rows[check.previous]), Natives(rows[check.row]))
  {
    hide TupleKey, HasNull, HasNil, SameTuple, TupleValid, KeysSeen, NumbersSeen, OneNumericKind, NoRepeat;
    hide Natives, Plain;
    ghost var natives := NativeRows(rows);
    NothingSeen(natives);
    var numbers: map<Word, nat> := map[];
    var keys: map<LookupKey, nat> := map[];
    for index := 0 to |rows|
      invariant forall i | 0 <= i < index :: !HasNil(rows[i]) && (known ==> !HasNull(natives[i]))
      invariant known ==> NoRepeat(natives, index)
      invariant known && |rows| > 1 && numeric ==> NumbersSeen(natives, index, numbers)
      invariant known && |rows| > 1 && !numeric ==> KeysSeen(natives, index, keys)
    {
      var nil := FindsNil(rows[index]);
      if nil {
        return NilKey(index);
      }
      if known {
        assert rows[index] in rows && natives[index] in natives;
        NilIsNull(rows[index]);
      }
      if known && |rows| > 1 {
        var lookup := ModelKey(Natives(rows[index]));
        if numeric {
          CompareNumbers(natives, index, numbers);
          if lookup.value.first in numbers {
            return Repeated(index, numbers[lookup.value.first]);
          }
          numbers := numbers[lookup.value.first := index];
        } else {
          CompareKeys(natives, index, keys);
          if lookup.value in keys {
            return Repeated(index, keys[lookup.value]);
          }
          keys := keys[lookup.value := index];
        }
      } else {
        SingleRow(natives, index);
      }
    }
    RepeatedPair(natives);
    check := Accepted;
  }

  ghost predicate NoRepeat(rows: seq<seq<Native>>, n: nat)
    requires n <= |rows|
  {
    forall i, j | 0 <= i < j < n :: !SameTuple(rows[i], rows[j])
  }

  lemma NothingSeen(rows: seq<seq<Native>>)
    ensures NoRepeat(rows, 0) && KeysSeen(rows, 0, map[]) && NumbersSeen(rows, 0, map[])
  {
  }

  lemma SingleRow(rows: seq<seq<Native>>, n: nat)
    requires n < |rows|
    ensures |rows| == 1 ==> NoRepeat(rows, n + 1)
  {
  }

  lemma RepeatedPair(rows: seq<seq<Native>>)
    ensures NoRepeat(rows, |rows|) <==> forall i, j | 0 <= i < j < |rows| :: !SameTuple(rows[i], rows[j])
  {
  }

  predicate IsNumber(v: Native) {
    v.Null? || v.Bool? || v.Signed? || v.Unsigned? || v.Float?
  }

  predicate SameKind(a: Native, b: Native) {
    a.Null? || b.Null? || (a.Bool? && b.Bool?) || (a.Signed? && b.Signed?) || (a.Unsigned?
      && b.Unsigned?) || (a.Float? && b.Float?)
  }

  predicate OneNumericKind(rows: seq<seq<Native>>) {
    && (forall r <- rows :: |r| == 1 && IsNumber(r[0]))
    && forall r <- rows, s <- rows :: |r| == 1 && |s| == 1 ==> SameKind(r[0], s[0])
  }

  ghost predicate KeysSeen(rows: seq<seq<Native>>, n: nat, keys: map<LookupKey, nat>)
    requires n <= |rows| && forall i | 0 <= i < n :: !HasNull(rows[i])
  {
    && (forall k :: k in keys ==> keys[k] < n && TupleKey(rows[keys[k]]) == k)
    && forall i | 0 <= i < n :: TupleKey(rows[i]) in keys
  }

  ghost predicate NumbersSeen(rows: seq<seq<Native>>, n: nat, numbers: map<Word, nat>)
    requires n <= |rows| && forall i | 0 <= i < n :: !HasNull(rows[i])
  {
    && (forall k :: k in numbers ==> numbers[k] < n && TupleKey(rows[numbers[k]]).first == k)
    && forall i | 0 <= i < n :: TupleKey(rows[i]).first in numbers
  }

  lemma CompareKeys(rows: seq<seq<Native>>, n: nat, keys: map<LookupKey, nat>)
    requires (forall r <- rows :: TupleValid(r) && |r| > 0) && SameWidth(rows)
    requires n < |rows| && forall i | 0 <= i <= n :: !HasNull(rows[i])
    requires KeysSeen(rows, n, keys)
    ensures TupleKey(rows[n]) in keys ==> keys[TupleKey(rows[n])] < n && SameTuple(rows[keys[TupleKey(rows[n])]],
      rows[n])
    ensures TupleKey(rows[n]) !in keys ==>
      (NoRepeat(rows, n) ==> NoRepeat(rows, n + 1)) && KeysSeen(rows, n + 1, keys[TupleKey(rows[n]) := n])
  {
    hide TupleKey, HasNull, SameTuple, TupleValid;
    forall i | 0 <= i < n
      ensures TupleKey(rows[i]) == TupleKey(rows[n]) <==> SameTuple(rows[i], rows[n])
    {
      assert rows[i] in rows && rows[n] in rows;
      TupleKeyExact(rows[i], rows[n]);
    }
  }

  lemma NumbersAreKeys(rows: seq<seq<Native>>, i: nat, n: nat)
    requires OneNumericKind(rows) && (forall r <- rows :: TupleValid(r)) && i < |rows| && n < |rows|
    requires !HasNull(rows[i]) && !HasNull(rows[n])
    ensures TupleKey(rows[i]).first == TupleKey(rows[n]).first <==> SameTuple(rows[i], rows[n])
  {
    assert rows[i] in rows && rows[n] in rows && rows[i][0] in rows[i] && rows[n][0] in rows[n];
    TupleKeyExact(rows[i], rows[n]);
    assert SameKind(rows[i][0], rows[n][0]);
  }

  lemma CompareNumbers(rows: seq<seq<Native>>, n: nat, numbers: map<Word, nat>)
    requires OneNumericKind(rows) && forall r <- rows :: TupleValid(r)
    requires n < |rows| && forall i | 0 <= i <= n :: !HasNull(rows[i])
    requires NumbersSeen(rows, n, numbers)
    ensures var k := TupleKey(rows[n]).first;
      && (k in numbers ==> numbers[k] < n && SameTuple(rows[numbers[k]], rows[n]))
      && (k !in numbers ==> (NoRepeat(rows, n) ==> NoRepeat(rows, n + 1)) && NumbersSeen(rows, n + 1, numbers[k := n]))
  {
    hide TupleKey, HasNull, SameTuple, TupleValid, OneNumericKind;
    forall i | 0 <= i < n
      ensures TupleKey(rows[i]).first == TupleKey(rows[n]).first <==> SameTuple(rows[i], rows[n])
    {
      NumbersAreKeys(rows, i, n);
    }
  }
}
