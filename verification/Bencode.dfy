/**
 The bencode decoder behind torrent uploads (internal/transport/qbittorrent/metainfo.go)
 and the encoder of the bencoding section of BEP 3 that it has to invert.
 */
module Bencode {
  import opened Wrappers

  newtype byte = x: int | 0 <= x < 256
  type Bytes = seq<byte>

  const INTEGER_TAG: byte := 105
  const LIST_TAG: byte := 108
  const DICTIONARY_TAG: byte := 100
  const END_TAG: byte := 101
  const COLON: byte := 58
  const PLUS: byte := 43
  const MINUS: byte := 45
  const ZERO: byte := 48
  const NINE: byte := 57
  const DEPTH_LIMIT := 100
  const INT64_BOUND := 0x8000_0000_0000_0000

  /** What the decoder returns: values whose parts remember where they were read. */
  datatype Value =
    | Integer(number: int)
    | Text(bytes: Bytes)
    | List(items: seq<BValue>)
    | Dictionary(entries: map<Bytes, BValue>)

  datatype BValue = BValue(value: Value, start: int, end: int)

  // ----- Library calls: indexByte, strconv.ParseInt and strconv.Atoi (64 bit) -----

  function IndexOf(data: Bytes, from: nat, target: byte): (r: Option<nat>)
    requires from <= |data|
    ensures r.Some? ==> from <= r.value < |data| && data[r.value] == target
    decreases |data| - from
  {
    if from == |data| then None
    else if data[from] == target then Some(from)
    else IndexOf(data, from + 1, target)
  }

  function ReadDigits(s: Bytes): Option<nat> {
    if s == [] then Some(0)
    else
      var last := s[|s| - 1];
      match ReadDigits(s[..|s| - 1])
      case None => None
      case Some(n) => if ZERO <= last <= NINE then Some(10 * n + (last as int - 48) as nat) else None
  }

  function ParseInt64(s: Bytes): Option<int> {
    var negative := |s| > 0 && s[0] == MINUS;
    var unsigned := if |s| > 0 && (s[0] == MINUS || s[0] == PLUS) then s[1..] else s;
    match ReadDigits(unsigned)
    case None => None
    case Some(magnitude) =>
      var n := (if negative then -1 else 1) * magnitude;
      if unsigned != [] && -INT64_BOUND <= n < INT64_BOUND then Some(n) else None
  }

  // ----- The decoder as a function of the data, the offset and the depth -----

  datatype TextRead = NoText | TextRead(text: Bytes, end: nat)
  datatype FieldsRead = NoFields | FieldsRead(fields: seq<Field>, end: nat)

  /** A member of a list (with an empty key) or of a dictionary. */
  datatype Field = Field(key: Bytes, part: BValue)

  function DecodeText(data: Bytes, at: nat): (r: TextRead)
    requires at <= |data|
    ensures r.TextRead? ==> at < r.end <= |data|
  {
    match IndexOf(data, at, COLON)
    case None => NoText
    case Some(colon) =>
      match ParseInt64(data[at..colon])
      case None => NoText
      case Some(n) =>
        if n < 0 || n > |data| - (colon + 1) then NoText
        else TextRead(data[colon + 1..colon + 1 + n], colon + 1 + n)
  }

  function DecodeValue(data: Bytes, at: nat, depth: nat): (r: Option<BValue>)
    requires at <= |data|
    ensures r.Some? ==> r.value.start == at < r.value.end <= |data|
    decreases |data| - at, 0
  {
    if at >= |data| || depth > DEPTH_LIMIT then None
    else if data[at] == INTEGER_TAG then
      match IndexOf(data, at + 1, END_TAG)
      case None => None
      case Some(end) =>
        match ParseInt64(data[at + 1..end])
        case None => None
        case Some(n) => Some(BValue(Integer(n), at, end + 1))
    else if data[at] == LIST_TAG || data[at] == DICTIONARY_TAG then
      var keyed := data[at] == DICTIONARY_TAG;
      match DecodeFields(data, at + 1, depth + 1, keyed)
      case NoFields => None
      case FieldsRead(fields, end) => Some(BValue(Container(fields, keyed), at, end))
    else
      match DecodeText(data, at)
      case NoText => None
      case TextRead(text, end) => Some(BValue(Text(text), at, end))
  }

  function DecodeFields(data: Bytes, at: nat, depth: nat, keyed: bool): (r: FieldsRead)
    requires at <= |data|
    ensures r.FieldsRead? ==> at < r.end <= |data|
    decreases |data| - at, 1
  {
    if at == |data| then NoFields
    else if data[at] == END_TAG then FieldsRead([], at + 1)
    else
      match if keyed then DecodeText(data, at) else TextRead([], at)
      case NoText => NoFields
      case TextRead(key, next) =>
        match DecodeValue(data, next, depth)
        case None => NoFields
        case Some(part) =>
          match DecodeFields(data, part.end, depth, keyed)
          case NoFields => NoFields
          case FieldsRead(rest, end) => FieldsRead([Field(key, part)] + rest, end)
  }

  function Container(fields: seq<Field>, keyed: bool): Value {
    if keyed then Dictionary(LastOfEach(fields)) else List(Parts(fields))
  }

  function Parts(fields: seq<Field>): (r: seq<BValue>)
    ensures |r| == |fields| && forall i | 0 <= i < |r| :: r[i] == fields[i].part
  {
    if fields == [] then [] else Parts(fields[..|fields| - 1]) + [fields[|fields| - 1].part]
  }

  /** A repeated key keeps its last value. */
  function LastOfEach(fields: seq<Field>): map<Bytes, BValue> {
    if fields == [] then map[]
    else
      var last := fields[|fields| - 1];
      LastOfEach(fields[..|fields| - 1])[last.key := last.part]
  }

  // ----- The decoder as the program runs it -----

  class BDecoder {
    const data: Bytes
    var offset: nat
    var depth: nat

    constructor (data: Bytes)
      ensures this.data == data && offset == 0 && depth == 0
    {
      this.data := data;
      offset, depth := 0, 0;
    }

    method IndexByte(target: byte) returns (index: int)
      requires offset <= |data|
      ensures index == match IndexOf(data, offset, target) case None => -1 case Some(i) => i
    {
      index := offset;
      while index < |data|
        invariant offset <= index <= |data|
        invariant IndexOf(data, offset, target) == IndexOf(data, index, target)
      {
        if data[index] == target {
          return;
        }
        index := index + 1;
      }
      index := -1;
    }

    method ByteString() returns (r: Option<Bytes>)
      requires offset <= |data|
      modifies this`offset
      ensures offset <= |data|
      ensures match DecodeText(data, old(offset))
              case NoText => r == None
              case TextRead(text, end) => r == Some(text) && offset == end
    {
      var colon := IndexByte(COLON);
      if colon < 0 {
        return None;
      }
      var length := ParseInt64(data[offset..colon]);
      if length == None || length.value < 0 {
        return None;
      }
      offset := colon + 1;
      if length.value > |data| - offset {
        return None;
      }
      r := Some(data[offset..offset + length.value]);
      offset := offset + length.value;
    }

    /** The nesting depth is given back on every path; the offset counts only on success. */
    method Value() returns (r: Option<BValue>)
      requires offset <= |data|
      modifies this
      ensures r == DecodeValue(data, old(offset), old(depth))
      ensures r.Some? ==> offset == r.value.end
      ensures offset <= |data| && depth == old(depth)
      decreases |data| - offset, 0
    {
      if offset >= |data| || depth > DEPTH_LIMIT {
        return None;
      }
      var start := offset;
      var tag := data[offset];
      depth := depth + 1;
      if tag == INTEGER_TAG {
        offset := offset + 1;
        var end := IndexByte(END_TAG);
        r := None;
        if end >= 0 {
          var number := ParseInt64(data[offset..end]);
          if number.Some? {
            offset := end + 1;
            r := Some(BValue(Integer(number.value), start, offset));
          }
        }
      } else if tag == LIST_TAG {
        offset := offset + 1;
        var items := Items();
        r := if items.None? then None else Some(BValue(List(items.value), start, offset));
      } else if tag == DICTIONARY_TAG {
        offset := offset + 1;
        var entries := Entries();
        r := if entries.None? then None else Some(BValue(Dictionary(entries.value), start, offset));
      } else {
        var text := ByteString();
        r := if text.None? then None else Some(BValue(Text(text.value), start, offset));
      }
      depth := depth - 1;
    }

    method Items() returns (r: Option<seq<BValue>>)
      requires offset <= |data|
      modifies this
      ensures offset <= |data| && depth == old(depth)
      ensures match DecodeFields(data, old(offset), old(depth), false)
              case NoFields => r == None
              case FieldsRead(fields, end) => r == Some(Parts(fields)) && offset == end
      decreases |data| - offset, 1
    {
      var values: seq<BValue> := [];
      ghost var done: seq<Field> := [];
      ghost var whole := DecodeFields(data, offset, depth, false);
      while offset < |data| && data[offset] != END_TAG
        invariant old(offset) <= offset <= |data| && depth == old(depth)
        invariant values == Parts(done)
        invariant whole == Before(done, DecodeFields(data, offset, depth, false))
        decreases |data| - offset
      {
        var part := Value();
        if part.None? {
          return None;
        }
        values := values + [part.value];
        done := ReadOneMore(done, Field([], part.value), DecodeFields(data, offset, depth, false));
      }
      if offset >= |data| {
        return None;
      }
      offset := offset + 1;
      assert done + [] == done;
      r := Some(values);
    }

    method Entries() returns (r: Option<map<Bytes, BValue>>)
      requires offset <= |data|
      modifies this
      ensures offset <= |data| && depth == old(depth)
      ensures match DecodeFields(data, old(offset), old(depth), true)
              case NoFields => r == None
              case FieldsRead(fields, end) => r == Some(LastOfEach(fields)) && offset == end
      decreases |data| - offset, 1
    {
      hide DecodeValue, DecodeText;
      var values: map<Bytes, BValue> := map[];
      ghost var done: seq<Field> := [];
      ghost var whole := DecodeFields(data, offset, depth, true);
      while offset < |data| && data[offset] != END_TAG
        invariant old(offset) <= offset <= |data| && depth == old(depth)
        invariant values == LastOfEach(done)
        invariant whole == Before(done, DecodeFields(data, offset, depth, true))
        decreases |data| - offset
      {
        var key := ByteString();
        if key.None? {
          return None;
        }
        var part := Value();
        if part.None? {
          return None;
        }
        values := values[key.value := part.value];
        done := ReadOneMore(done, Field(key.value, part.value), DecodeFields(data, offset, depth, true));
      }
      if offset >= |data| {
        return None;
      }
      offset := offset + 1;
      assert done + [] == done;
      r := Some(values);
    }
  }

  /** What reading gives when `done` has been read and `rest` is what is left. */
  function Before(done: seq<Field>, rest: FieldsRead): FieldsRead {
    if rest.NoFields? || done == [] then rest else FieldsRead(done + rest.fields, rest.end)
  }

  lemma ReadOneMore(done: seq<Field>, field: Field, rest: FieldsRead) returns (more: seq<Field>)
    ensures more == done + [field] && more[..|done|] == done
    ensures Before(more, rest) ==
            Before(done, if rest.NoFields? then rest else FieldsRead([field] + rest.fields, rest.end))
  {
    more := done + [field];
    if rest.FieldsRead? {
      assert more + rest.fields == done + ([field] + rest.fields);
    }
  }
}
