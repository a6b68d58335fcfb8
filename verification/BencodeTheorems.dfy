/**
 Three facts about the decoder of module Bencode: it inverts the BEP 3 encoder with exact
 positions, the parts of what it returns are properly nested, and what it reads depends on
 the bytes it consumes only.
 */
module BencodeTheorems {
  import opened Wrappers
  import opened Bencode

  // ----- The encoder (bencoding section of BEP 3) -----

  /** A list (`keyed` false, every key empty) or a dictionary is a group of entries. */
  datatype Tree =
    | IntegerTree(number: int)
    | TextTree(bytes: Bytes)
    | Group(keyed: bool, entries: seq<Entry>)

  datatype Entry = Entry(key: Bytes, tree: Tree)

  predicate Proper(t: Tree) {
    t.Group? ==>
      forall i | 0 <= i < |t.entries| :: (t.keyed || t.entries[i].key == []) && Proper(t.entries[i].tree)
  }

  function Numeral(n: nat): Bytes {
    if n < 10 then [(n + 48) as byte] else Numeral(n / 10) + [(n % 10 + 48) as byte]
  }

  function EncodeInteger(n: int): Bytes {
    if n < 0 then [MINUS] + Numeral(-n) else Numeral(n)
  }

  function EncodeText(b: Bytes): Bytes {
    Numeral(|b|) + [COLON] + b
  }

  function Encode(t: Tree): Bytes
    decreases t, 0
  {
    match t
    case IntegerTree(n) => [INTEGER_TAG] + (EncodeInteger(n) + [END_TAG])
    case TextTree(b) => EncodeText(b)
    case Group(keyed, es) => [if keyed then DICTIONARY_TAG else LIST_TAG] + EncodeEntries(es, keyed)
  }

  function EncodeKey(key: Bytes, keyed: bool): Bytes {
    if keyed then EncodeText(key) else []
  }

  /** The entries and the closing tag. */
  function EncodeEntries(es: seq<Entry>, keyed: bool): (b: Bytes)
    ensures |b| >= 1
    decreases es, 1
  {
    if es == [] then [END_TAG]
    else EncodeKey(es[0].key, keyed) + (Encode(es[0].tree) + EncodeEntries(es[1..], keyed))
  }

  // ----- What decoding an encoded tree has to give -----

  /** Every number is a 64-bit integer, every length too, and nothing is nested too deeply. */
  predicate Fits(t: Tree, depth: nat)
    decreases t, 0
  {
    && depth <= DEPTH_LIMIT
    && match t
       case IntegerTree(n) => -INT64_BOUND <= n < INT64_BOUND
       case TextTree(b) => |b| < INT64_BOUND
       case Group(_, es) => EntriesFit(es, depth + 1)
  }

  predicate EntriesFit(es: seq<Entry>, depth: nat)
    decreases es, 1
  {
    es == [] || (|es[0].key| < INT64_BOUND && Fits(es[0].tree, depth) && EntriesFit(es[1..], depth))
  }

  /** The tree with the positions its parts have when its encoding starts at `at`. */
  function Located(t: Tree, at: int): BValue
    decreases t, 0
  {
    var value := match t
      case IntegerTree(n) => Integer(n)
      case TextTree(b) => Text(b)
      case Group(keyed, es) => Container(LocateFields(es, at + 1, keyed), keyed);
    BValue(value, at, at + |Encode(t)|)
  }

  function LocateFields(es: seq<Entry>, at: int, keyed: bool): seq<Field>
    decreases es, 1
  {
    if es == [] then []
    else
      var next := at + |EncodeKey(es[0].key, keyed)|;
      [Field(es[0].key, Located(es[0].tree, next))] +
      LocateFields(es[1..], next + |Encode(es[0].tree)|, keyed)
  }

  // ----- Round trip -----

  predicate Holds(data: Bytes, at: nat, part: Bytes) {
    at + |part| <= |data| && data[at..at + |part|] == part
  }

  lemma HoldsSplit(data: Bytes, at: nat, left: Bytes, right: Bytes)
    requires Holds(data, at, left + right)
    ensures Holds(data, at, left) && Holds(data, at + |left|, right)
  {
    var whole := data[at..at + |left + right|];
    assert data[at..at + |left|] == whole[..|left|];
    assert data[at + |left|..at + |left| + |right|] == whole[|left|..];
  }

  lemma {:induction false} NumeralBytes(n: nat)
    ensures |Numeral(n)| >= 1
    ensures forall i | 0 <= i < |Numeral(n)| :: ZERO <= Numeral(n)[i] <= NINE
    ensures ReadDigits(Numeral(n)) == Some(n)
  {
    if n >= 10 {
      NumeralBytes(n / 10);
      assert Numeral(n)[..|Numeral(n)| - 1] == Numeral(n / 10);
    }
  }

  lemma ParseInteger(n: int)
    ensures ParseInt64(EncodeInteger(n)) == if -INT64_BOUND <= n < INT64_BOUND then Some(n) else None
    ensures forall i | 0 <= i < |EncodeInteger(n)| :: EncodeInteger(n)[i] <= NINE
    ensures |EncodeInteger(n)| >= 1
  {
    NumeralBytes(if n < 0 then -n else n);
    if n < 0 {
      assert EncodeInteger(n)[1..] == Numeral(-n);
    }
  }

  lemma {:induction false} FirstIndex(data: Bytes, from: nat, i: nat, target: byte)
    requires from <= i < |data| && data[i] == target && forall j | from <= j < i :: data[j] != target
    ensures IndexOf(data, from, target) == Some(i)
    decreases i - from
  {
    if from < i {
      FirstIndex(data, from + 1, i, target);
    }
  }

  lemma DecodeEncodedText(data: Bytes, at: nat, b: Bytes)
    requires Holds(data, at, EncodeText(b))
    ensures DecodeText(data, at) ==
            if |b| < INT64_BOUND then TextRead(b, at + |EncodeText(b)|) else NoText
  {
    hide ParseInt64, Numeral, ReadDigits, IndexOf;
    var numeral := Numeral(|b|);
    assert EncodeText(b) == numeral + ([COLON] + b);
    HoldsSplit(data, at, numeral, [COLON] + b);
    HoldsSplit(data, at + |numeral|, [COLON], b);
    NumeralBytes(|b|);
    var colon := at + |numeral|;
    assert data[colon] == data[colon..colon + 1][0] == COLON;
    forall j | at <= j < colon ensures data[j] != COLON {
      assert data[j] == data[at..colon][j - at] == numeral[j - at];
    }
    FirstIndex(data, at, colon, COLON);
    ParseInteger(|b|);
  }

  lemma DecodeEncodedInteger(data: Bytes, at: nat, n: int)
    requires Holds(data, at, [INTEGER_TAG] + (EncodeInteger(n) + [END_TAG]))
    ensures var end := at + 1 + |EncodeInteger(n)|;
            && end < |data|
            && IndexOf(data, at + 1, END_TAG) == Some(end)
            && ParseInt64(data[at + 1..end]) == if -INT64_BOUND <= n < INT64_BOUND then Some(n) else None
  {
    hide ParseInt64, EncodeInteger, IndexOf;
    ParseInteger(n);
    var text := EncodeInteger(n);
    HoldsSplit(data, at, [INTEGER_TAG], text + [END_TAG]);
    HoldsSplit(data, at + 1, text, [END_TAG]);
    var end := at + 1 + |text|;
    assert data[end] == data[end..end + 1][0] == END_TAG;
    forall j | at + 1 <= j < end ensures data[j] != END_TAG {
      assert data[j] == data[at + 1..end][j - (at + 1)] == text[j - (at + 1)];
    }
    FirstIndex(data, at + 1, end, END_TAG);
  }

  lemma TextHead(b: Bytes)
    ensures |EncodeText(b)| >= 2 && ZERO <= EncodeText(b)[0] <= NINE
  {
    NumeralBytes(|b|);
  }

  lemma EncodeHead(t: Tree)
    ensures |Encode(t)| >= 2 && Encode(t)[0] != END_TAG
    ensures t.TextTree? ==> ZERO <= Encode(t)[0] <= NINE
  {
    hide EncodeEntries, EncodeInteger, EncodeText;
    if t.TextTree? {
      TextHead(t.bytes);
    }
  }

  lemma {:induction false} DecodeEncoded(data: Bytes, at: nat, t: Tree, depth: nat)
    requires Proper(t) && Holds(data, at, Encode(t))
    ensures DecodeValue(data, at, depth) == if Fits(t, depth) then Some(Located(t, at)) else None
    decreases t, 0
  {
    hide DecodeText, DecodeFields, EncodeEntries, EncodeText, EncodeInteger, ParseInt64, IndexOf, Container,
         LocateFields, EntriesFit;
    EncodeHead(t);
    assert data[at] == data[at..at + |Encode(t)|][0];
    if depth <= DEPTH_LIMIT {
      match t
      case IntegerTree(n) =>
        DecodeEncodedInteger(data, at, n);
      case TextTree(b) =>
        DecodeEncodedText(data, at, b);
      case Group(keyed, es) =>
        HoldsSplit(data, at, Encode(t)[..1], EncodeEntries(es, keyed));
        DecodeEncodedEntries(data, at + 1, es, depth + 1, keyed);
    }
  }

  lemma NoFieldsLeft(data: Bytes, at: nat, depth: nat, keyed: bool)
    requires at < |data| && data[at] == END_TAG
    ensures DecodeFields(data, at, depth, keyed) == FieldsRead([], at + 1)
  {
  }

  lemma FieldsStep(data: Bytes, at: nat, depth: nat, keyed: bool, key: TextRead)
    requires at < |data| && data[at] != END_TAG
    requires key == if keyed then DecodeText(data, at) else TextRead([], at)
    ensures DecodeFields(data, at, depth, keyed) ==
            if key.NoText? then NoFields
            else match DecodeValue(data, key.end, depth)
                 case None => NoFields
                 case Some(part) =>
                   match DecodeFields(data, part.end, depth, keyed)
                   case NoFields => NoFields
                   case FieldsRead(rest, end) => FieldsRead([Field(key.text, part)] + rest, end)
  {
  }

  lemma EncodedEntriesSplit(data: Bytes, at: nat, es: seq<Entry>, keyed: bool)
    requires es != [] && (keyed || es[0].key == []) && Holds(data, at, EncodeEntries(es, keyed))
    ensures var next := at + |EncodeKey(es[0].key, keyed)|;
            && Holds(data, at, EncodeKey(es[0].key, keyed))
            && Holds(data, next, Encode(es[0].tree))
            && Holds(data, next + |Encode(es[0].tree)|, EncodeEntries(es[1..], keyed))
  {
    hide EncodeKey, Encode;
    var key, head, rest := EncodeKey(es[0].key, keyed), Encode(es[0].tree), EncodeEntries(es[1..], keyed);
    HoldsSplit(data, at, key, head + rest);
    HoldsSplit(data, at + |key|, head, rest);
  }

  lemma EncodedEntryHead(data: Bytes, at: nat, key: Bytes, tree: Tree, keyed: bool)
    requires keyed || key == []
    requires Holds(data, at, EncodeKey(key, keyed)) && Holds(data, at + |EncodeKey(key, keyed)|, Encode(tree))
    ensures at < |data| && data[at] != END_TAG
    ensures (if keyed then DecodeText(data, at) else TextRead([], at)) ==
            if |key| < INT64_BOUND then TextRead(key, at + |EncodeKey(key, keyed)|) else NoText
  {
    hide EncodeText, Encode, DecodeText;
    if keyed {
      TextHead(key);
      assert data[at] == data[at..at + |EncodeText(key)|][0];
      DecodeEncodedText(data, at, key);
    } else {
      EncodeHead(tree);
      assert data[at] == data[at..at + |Encode(tree)|][0];
    }
  }

  lemma LocatedEnd(t: Tree, at: int)
    ensures Located(t, at).end == at + |Encode(t)|
  {
  }

  lemma {:induction false} DecodeEncodedEntries(data: Bytes, at: nat, es: seq<Entry>, depth: nat, keyed: bool)
    requires forall i | 0 <= i < |es| :: (keyed || es[i].key == []) && Proper(es[i].tree)
    requires Holds(data, at, EncodeEntries(es, keyed))
    ensures DecodeFields(data, at, depth, keyed) ==
            if EntriesFit(es, depth)
            then FieldsRead(LocateFields(es, at, keyed), at + |EncodeEntries(es, keyed)|) else NoFields
    decreases es, 1
  {
    hide DecodeText, DecodeFields, DecodeValue, EncodeText, Encode, EncodeKey, Fits, Proper, Located;
    if es == [] {
      assert data[at] == data[at..at + 1][0];
      NoFieldsLeft(data, at, depth, keyed);
    } else {
      hide Holds;
      EncodedEntriesSplit(data, at, es, keyed);
      EncodedEntryHead(data, at, es[0].key, es[0].tree, keyed);
      var next, head := at + |EncodeKey(es[0].key, keyed)|, Encode(es[0].tree);
      FieldsStep(data, at, depth, keyed, if |es[0].key| < INT64_BOUND then TextRead(es[0].key, next) else NoText);
      LocatedEnd(es[0].tree, next);
      DecodeEncoded(data, next, es[0].tree, depth);
      DecodeEncodedEntries(data, next + |head|, es[1..], depth, keyed);
    }
  }

  /** Decoding inverts encoding, consumes everything and rejects exactly what does not fit. */
  lemma RoundTrip(t: Tree)
    requires Proper(t)
    ensures DecodeValue(Encode(t), 0, 0) == if Fits(t, 0) then Some(Located(t, 0)) else None
    ensures Located(t, 0).end == |Encode(t)|
  {
    assert Encode(t)[0..0 + |Encode(t)|] == Encode(t);
    DecodeEncoded(Encode(t), 0, t, 0);
  }

  function Levels(t: Tree): nat
    decreases t, 0
  {
    if t.Group? then 1 + Deepest(t.entries) else 1
  }

  function Deepest(es: seq<Entry>): nat
    decreases es, 1
  {
    if es == [] then 0
    else
      var first, rest := Levels(es[0].tree), Deepest(es[1..]);
      if first > rest then first else rest
  }

  /** The numbers and lengths that a 64-bit decoder can hold. */
  predicate WithinInt64(t: Tree) {
    match t
    case IntegerTree(n) => -INT64_BOUND <= n < INT64_BOUND
    case TextTree(b) => |b| < INT64_BOUND
    case Group(_, es) =>
      forall i | 0 <= i < |es| :: |es[i].key| < INT64_BOUND && WithinInt64(es[i].tree)
  }

  /** The depth limit admits exactly 101 levels. */
  lemma {:induction false} FitsIffLevels(t: Tree, depth: nat)
    ensures Fits(t, depth) <==> WithinInt64(t) && depth + Levels(t) <= DEPTH_LIMIT + 1
    decreases t, 0
  {
    if t.Group? {
      EntriesFitIffDeepest(t.entries, depth + 1);
    }
  }

  lemma {:induction false} EntriesFitIffDeepest(es: seq<Entry>, depth: nat)
    requires depth >= 1
    ensures depth <= DEPTH_LIMIT + 1 ==>
              (EntriesFit(es, depth) <==>
               (forall i | 0 <= i < |es| :: |es[i].key| < INT64_BOUND && WithinInt64(es[i].tree))
               && depth + Deepest(es) <= DEPTH_LIMIT + 1)
    decreases es, 1
  {
    if es != [] {
      FitsIffLevels(es[0].tree, depth);
      EntriesFitIffDeepest(es[1..], depth);
      assert forall i | 0 <= i < |es[1..]| :: es[1..][i] == es[i + 1];
      assert forall i | 1 <= i < |es| :: es[i] == es[1..][i - 1];
    }
  }

  // ----- Nesting of positions -----

  /** List items follow each other inside the list; dictionary values are disjoint inside it. */
  predicate WellNested(v: BValue)
    decreases v
  {
    && v.start < v.end
    && match v.value
       case Integer(_) => true
       case Text(_) => true
       case List(items) =>
         && (forall i | 0 <= i < |items| ::
               v.start < items[i].start && items[i].end < v.end && WellNested(items[i]))
         && (forall i, j | 0 <= i < j < |items| :: items[i].end <= items[j].start)
       case Dictionary(entries) =>
         && (forall k | k in entries ::
               v.start < entries[k].start && entries[k].end < v.end && WellNested(entries[k]))
         && (forall j, k | j in entries && k in entries && j != k :: Disjoint(entries[j], entries[k]))
  }

  predicate Disjoint(v: BValue, w: BValue) {
    v.end <= w.start || w.end <= v.start
  }

  /** The fields lie one after the other up to `to`, the first one not before `from`. */
  predicate Ordered(fields: seq<Field>, from: int, to: int) {
    && (forall i | 0 <= i < |fields| :: from <= fields[i].part.start < fields[i].part.end < to)
    && (forall i, j | 0 <= i < j < |fields| :: fields[i].part.end <= fields[j].part.start)
  }

  lemma {:induction false} LastOfEachOccurs(fields: seq<Field>) returns (from: map<Bytes, nat>)
    ensures from.Keys == LastOfEach(fields).Keys
    ensures forall i | 0 <= i < |fields| :: fields[i].key in from && i <= from[fields[i].key]
    ensures forall k | k in from :: from[k] < |fields| && fields[from[k]] == Field(k, LastOfEach(fields)[k])
  {
    from := map[];
    if fields != [] {
      var n := |fields| - 1;
      from := LastOfEachOccurs(fields[..n]);
      from := from[fields[n].key := n];
    }
  }

  lemma {:induction false} DecodedWellNested(data: Bytes, at: nat, depth: nat)
    requires at <= |data| && DecodeValue(data, at, depth).Some?
    ensures WellNested(DecodeValue(data, at, depth).value)
    decreases |data| - at, 0
  {
    hide DecodeFields, DecodeText, ParseInt64, IndexOf, Container;
    if data[at] == LIST_TAG || data[at] == DICTIONARY_TAG {
      var keyed := data[at] == DICTIONARY_TAG;
      DecodedFieldsOrdered(data, at + 1, depth + 1, keyed);
      var FieldsRead(fields, end) := DecodeFields(data, at + 1, depth + 1, keyed);
      ContainerWellNested(fields, keyed, at, end);
    }
  }

  lemma ContainerWellNested(fields: seq<Field>, keyed: bool, at: int, end: int)
    requires at + 1 <= end && Ordered(fields, at + 1, end)
    requires forall i | 0 <= i < |fields| :: WellNested(fields[i].part)
    ensures WellNested(BValue(Container(fields, keyed), at, end))
  {
    if keyed {
      var entries := LastOfEach(fields);
      EntriesDisjoint(fields, entries, at, end);
    } else {
      var items := Parts(fields);
      forall i | 0 <= i < |items|
        ensures at < items[i].start && items[i].end < end && WellNested(items[i])
      {
        assert items[i] == fields[i].part;
      }
    }
  }

  lemma EntriesDisjoint(fields: seq<Field>, entries: map<Bytes, BValue>, at: int, end: int)
    requires Ordered(fields, at + 1, end) && entries == LastOfEach(fields)
    requires forall i | 0 <= i < |fields| :: WellNested(fields[i].part)
    ensures forall k | k in entries ::
              at < entries[k].start && entries[k].end < end && WellNested(entries[k])
    ensures forall j, k | j in entries && k in entries && j != k :: Disjoint(entries[j], entries[k])
  {
    hide LastOfEach;
    var from := LastOfEachOccurs(fields);
    forall k | k in entries
      ensures at < entries[k].start && entries[k].end < end && WellNested(entries[k])
    {
      assert fields[from[k]].part == entries[k];
    }
    forall j, k | j in entries && k in entries && j != k ensures Disjoint(entries[j], entries[k]) {
      assert fields[from[j]].part == entries[j] && fields[from[k]].part == entries[k];
      assert fields[from[j]].key != fields[from[k]].key;
    }
  }

  /** Every field is what decoding at its own position gives. */
  lemma {:induction false} DecodedFieldsOrdered(data: Bytes, at: nat, depth: nat, keyed: bool)
    requires at <= |data| && DecodeFields(data, at, depth, keyed).FieldsRead?
    ensures var FieldsRead(fields, end) := DecodeFields(data, at, depth, keyed);
            && Ordered(fields, at, end)
            && (forall i | 0 <= i < |fields| ::
                  && WellNested(fields[i].part)
                  && fields[i].part.start <= |data|
                  && DecodeValue(data, fields[i].part.start, depth) == Some(fields[i].part))
    decreases |data| - at, 1
  {
    hide DecodeValue, DecodeText, WellNested;
    if data[at] != END_TAG {
      var next := if keyed then DecodeText(data, at).end else at;
      DecodedWellNested(data, next, depth);
      DecodedFieldsOrdered(data, DecodeValue(data, next, depth).value.end, depth, keyed);
    }
  }

  // ----- Locality -----

  /** The same value read `delta` bytes further on. */
  predicate SameMoved(v: BValue, w: BValue, delta: int)
    decreases v
  {
    && w.start == v.start + delta && w.end == v.end + delta
    && match v.value
       case Integer(n) => w.value == Integer(n)
       case Text(b) => w.value == Text(b)
       case List(items) =>
         && w.value.List? && |w.value.items| == |items|
         && forall i | 0 <= i < |items| :: SameMoved(items[i], w.value.items[i], delta)
       case Dictionary(entries) =>
         && w.value.Dictionary? && w.value.entries.Keys == entries.Keys
         && forall k | k in entries :: SameMoved(entries[k], w.value.entries[k], delta)
  }

  predicate FieldsMoved(fields: seq<Field>, fields': seq<Field>, delta: int) {
    && |fields'| == |fields|
    && forall i | 0 <= i < |fields| ::
         fields'[i].key == fields[i].key && SameMoved(fields[i].part, fields'[i].part, delta)
  }

  lemma {:induction false} LastOfEachMoved(fields: seq<Field>, fields': seq<Field>, delta: int)
    requires FieldsMoved(fields, fields', delta)
    ensures LastOfEach(fields').Keys == LastOfEach(fields).Keys
    ensures forall k | k in LastOfEach(fields) :: SameMoved(LastOfEach(fields)[k], LastOfEach(fields')[k], delta)
  {
    hide SameMoved;
    if fields != [] {
      LastOfEachMoved(fields[..|fields| - 1], fields'[..|fields| - 1], delta);
    }
  }

  /** `other` repeats at `there` the bytes of `data` between `at` and `end`. */
  predicate Copies(data: Bytes, at: nat, end: int, other: Bytes, there: nat) {
    && at <= end <= |data|
    && there + (end - at) <= |other|
    && forall i {:trigger data[i]} | at <= i < end :: other[there + (i - at)] == data[i]
  }

  lemma {:induction false} CopiedIndex(data: Bytes, at: nat, end: int, other: Bytes, there: nat, target: byte)
    requires Copies(data, at, end, other, there)
    requires IndexOf(data, at, target).Some? && IndexOf(data, at, target).value < end
    ensures var i := IndexOf(data, at, target).value;
            && IndexOf(other, there, target) == Some(there + (i - at))
            && other[there..there + (i - at)] == data[at..i]
    decreases end - at
  {
    assert other[there] == data[at];
    if data[at] != target {
      CopiedIndex(data, at + 1, end, other, there + 1, target);
    }
  }

  lemma TextIsLocal(data: Bytes, at: nat, end: int, other: Bytes, there: nat)
    requires at <= |data| && DecodeText(data, at).TextRead? && DecodeText(data, at).end <= end
    requires Copies(data, at, end, other, there)
    ensures var TextRead(text, next) := DecodeText(data, at);
            DecodeText(other, there) == TextRead(text, there + (next - at))
  {
    CopiedIndex(data, at, end, other, there, COLON);
    hide IndexOf, ParseInt64;
    var TextRead(text, next) := DecodeText(data, at);
    var colon := IndexOf(data, at, COLON).value;
    assert other[there + (colon + 1 - at)..there + (next - at)] == data[colon + 1..next];
  }

  /** The bytes a value was read from decode to the same value wherever they stand. */
  lemma {:induction false} DecodeIsLocal(data: Bytes, at: nat, depth: nat, other: Bytes, there: nat, depth': nat)
    requires at <= |data| && DecodeValue(data, at, depth).Some? && depth' <= depth
    requires Copies(data, at, DecodeValue(data, at, depth).value.end, other, there)
    ensures DecodeValue(other, there, depth').Some?
    ensures SameMoved(DecodeValue(data, at, depth).value, DecodeValue(other, there, depth').value, there - at)
    decreases |data| - at, 0
  {
    hide DecodeFields, DecodeText, ParseInt64, IndexOf, LastOfEach, Parts;
    var end := DecodeValue(data, at, depth).value.end;
    assert other[there] == data[at];
    if data[at] == INTEGER_TAG {
      CopiedIndex(data, at + 1, end, other, there + 1, END_TAG);
    } else if data[at] == LIST_TAG || data[at] == DICTIONARY_TAG {
      var keyed := data[at] == DICTIONARY_TAG;
      FieldsAreLocal(data, at + 1, depth + 1, other, there + 1, depth' + 1, keyed);
      LastOfEachMoved(DecodeFields(data, at + 1, depth + 1, keyed).fields,
                      DecodeFields(other, there + 1, depth' + 1, keyed).fields, there - at);
    } else {
      TextIsLocal(data, at, end, other, there);
    }
  }

  lemma {:induction false} FieldsAreLocal(
      data: Bytes, at: nat, depth: nat, other: Bytes, there: nat, depth': nat, keyed: bool)
    requires at <= |data| && DecodeFields(data, at, depth, keyed).FieldsRead? && depth' <= depth
    requires Copies(data, at, DecodeFields(data, at, depth, keyed).end, other, there)
    ensures var FieldsRead(fields, end) := DecodeFields(data, at, depth, keyed);
            && DecodeFields(other, there, depth', keyed).FieldsRead?
            && var FieldsRead(fields', end') := DecodeFields(other, there, depth', keyed);
               end' == there + (end - at) && FieldsMoved(fields, fields', there - at)
    decreases |data| - at, 1
  {
    hide DecodeFields, DecodeValue, DecodeText;
    var end := DecodeFields(data, at, depth, keyed).end;
    assert other[there] == data[at];
    if data[at] == END_TAG {
      NoFieldsLeft(data, at, depth, keyed);
      NoFieldsLeft(other, there, depth', keyed);
    } else {
      var key := if keyed then DecodeText(data, at) else TextRead([], at);
      FieldsStep(data, at, depth, keyed, key);
      if keyed {
        TextIsLocal(data, at, end, other, there);
      }
      var next, there' := key.end, there + (key.end - at);
      FieldsStep(other, there, depth', keyed, TextRead(key.text, there'));
      var part := DecodeValue(data, next, depth).value;
      DecodeIsLocal(data, next, depth, other, there', depth');
      FieldsAreLocal(data, part.end, depth, other, there' + (part.end - next), depth', keyed);
    }
  }
}
