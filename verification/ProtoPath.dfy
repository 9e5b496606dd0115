/** The Confluent message-index prefix of Protobuf payloads
    (pkg/schemaregistry/proto.go): a path into the tree of nested messages,
    written as zig-zag base-128 varints, or the single byte 0 for the first
    top-level message. */
module ProtoPath {
  import opened Codec
  import opened Options

  // ----- Varints, as encoding/binary reads them -----

  const TWO63 := 0x8000_0000_0000_0000

  function PutUvarint(u: nat): (b: seq<Byte>)
    ensures b != []
  {
    if u < 128 then [u] else [u % 128 + 128] + PutUvarint(u / 128)
  }

  /** A read value and the number of bytes it took. */
  datatype Read<T> = Read(value: T, n: nat) | Malformed

  /** binary.Uvarint from its i-th byte on: at most ten bytes, the tenth at most 1. */
  function Uvarint(data: seq<Byte>, i: nat): (r: Read<nat>)
    ensures r.Read? ==> 0 < r.n <= |data|
    decreases |data|
  {
    if data == [] || i == 10 then Malformed
    else if data[0] < 128 then
      if i == 9 && data[0] > 1 then Malformed else Read(data[0], 1)
    else
      match Uvarint(data[1..], i + 1)
      case Malformed => Malformed
      case Read(v, n) => Read(data[0] as int - 128 + 128 * v, n + 1)
  }

  function ZigZag(x: int): nat { if x >= 0 then 2 * x else -2 * x - 1 }
  function UnZigZag(u: nat): int { if u % 2 == 0 then u / 2 else -(u / 2) - 1 }

  function PutVarint(x: int): (b: seq<Byte>)
    ensures b != []
  {
    PutUvarint(ZigZag(x))
  }

  function Varint(data: seq<Byte>): (r: Read<int>)
    ensures r.Read? ==> 0 < r.n <= |data|
  {
    match Uvarint(data, 0)
    case Malformed => Malformed
    case Read(u, n) => Read(UnZigZag(u), n)
  }

  /** What is left of 64 bits after i groups of seven. */
  function Room(i: nat): nat
    requires i <= 9
    decreases 9 - i
  {
    if i == 9 then 2 else 128 * Room(i + 1)
  }

  lemma RoomOf64Bits()
    ensures Room(0) == 2 * TWO63
  {
    assert Room(8) == 128 * 2;
    assert Room(7) == 128 * Room(8);
    assert Room(6) == 128 * Room(7);
    assert Room(5) == 128 * Room(6);
    assert Room(4) == 128 * Room(5);
    assert Room(3) == 128 * Room(4);
    assert Room(2) == 128 * Room(3);
    assert Room(1) == 128 * Room(2);
  }

  lemma {:induction false} UvarintRoundTrip(u: nat, tail: seq<Byte>, i: nat)
    requires i <= 9 && u < Room(i)
    ensures Uvarint(PutUvarint(u) + tail, i) == Read(u, |PutUvarint(u)|)
  {
    var data := PutUvarint(u) + tail;
    if u >= 128 {
      assert i < 9;
      UvarintRoundTrip(u / 128, tail, i + 1);
      assert data[1..] == PutUvarint(u / 128) + tail;
    }
  }

  /** Every 64-bit integer is read back, whatever follows. */
  lemma VarintRoundTrip(x: int, tail: seq<Byte>)
    requires -TWO63 <= x < TWO63
    ensures Varint(PutVarint(x) + tail) == Read(x, |PutVarint(x)|)
  {
    RoomOf64Bits();
    UvarintRoundTrip(ZigZag(x), tail, 0);
  }

  lemma {:induction false} FirstByteNonZero(u: nat)
    requires u > 0
    ensures PutUvarint(u)[0] != 0
  {
  }

  // ----- Message tree -----

  datatype Message = Message(name: string, nested: seq<Message>)

  /** Every index lies within the messages at its depth. */
  predicate ValidPath(ms: seq<Message>, path: seq<int>)
    decreases |path|
  {
    path == [] || (0 <= path[0] < |ms| && ValidPath(ms[path[0]].nested, path[1..]))
  }

  function Children(ms: seq<Message>, path: seq<int>): (r: seq<Message>)
    requires ValidPath(ms, path)
    decreases |path|
  {
    if path == [] then ms else Children(ms[path[0]].nested, path[1..])
  }

  function At(ms: seq<Message>, path: seq<int>): Message
    requires path != [] && ValidPath(ms, path)
    decreases |path|
  {
    if |path| == 1 then ms[path[0]] else At(ms[path[0]].nested, path[1..])
  }

  lemma {:induction false} PathSnoc(ms: seq<Message>, path: seq<int>, idx: int)
    requires path != []
    ensures ValidPath(ms, path + [idx]) <==>
            ValidPath(ms, path) && 0 <= idx < |At(ms, path).nested|
    ensures ValidPath(ms, path + [idx]) ==> At(ms, path + [idx]) == At(ms, path).nested[idx]
  {
    if 0 <= path[0] < |ms| {
      assert (path + [idx])[1..] == path[1..] + [idx];
      if |path| > 1 {
        PathSnoc(ms[path[0]].nested, path[1..], idx);
      } else {
        assert path[1..] == [] && path[1..] + [idx] == [idx] && [idx][1..] == [];
        var inner := ms[path[0]].nested;
        assert ValidPath(inner, path[1..]) && ValidPath(ms, path);
        assert ValidPath(inner, [idx]) <==> 0 <= idx < |inner|;
        assert ValidPath(ms, path + [idx]) <==> ValidPath(inner, [idx]);
      }
    }
  }

  lemma {:induction false} PrefixInvalid(ms: seq<Message>, path: seq<int>, n: nat)
    requires n <= |path| && !ValidPath(ms, path[..n])
    ensures !ValidPath(ms, path)
    decreases |path|
  {
    if 0 <= path[0] < |ms| {
      assert path[..n][1..] == path[1..][..n - 1];
      PrefixInvalid(ms[path[0]].nested, path[1..], n - 1);
    }
  }

  method DescendIndices(ms: seq<Message>, indices: seq<int>) returns (r: Option<Message>)
    ensures r.Some? <==> indices != [] && ValidPath(ms, indices)
    ensures r.Some? ==> r.value == At(ms, indices)
  {
    if |indices| == 0 {
      return None;
    }
    if indices[0] < 0 || indices[0] >= |ms| {
      return None;
    }
    var cur := ms[indices[0]];
    for i := 1 to |indices|
      invariant ValidPath(ms, indices[..i]) && cur == At(ms, indices[..i])
    {
      assert indices[..i + 1] == indices[..i] + [indices[i]];
      PathSnoc(ms, indices[..i], indices[i]);
      var idx := indices[i];
      if idx < 0 || idx >= |cur.nested| {
        PrefixInvalid(ms, indices, i + 1);
        return None;
      }
      cur := cur.nested[idx];
    }
    assert indices[..|indices|] == indices;
    return Some(cur);
  }

  // ----- resolveMessage -----

  datatype Resolved =
    | Resolved(message: Message, tail: seq<Byte>)
    | EmptyPayload
    | MalformedLength
    | BadCapacity   // make with a negative capacity, or one too large: a run-time panic
    | MalformedEntry
    | OutOfRange

  /** n entries read from data, and what follows them. */
  function Entries(data: seq<Byte>, n: nat): Option<(seq<int>, seq<Byte>)> {
    if n == 0 then Some(([], data))
    else
      match Varint(data)
      case Malformed => None
      case Read(v, k) =>
        match Entries(data[k..], n - 1)
        case None => None
        case Some((rest, tail)) => Some(([v] + rest, tail))
  }

  /** `bound` is the largest capacity that make accepts. */
  function Resolve(ms: seq<Message>, data: seq<Byte>, bound: nat): Resolved
    requires ms != []
  {
    if data == [] then EmptyPayload
    else if data[0] == 0 then Resolved(ms[0], data[1..])
    else
      match Varint(data)
      case Malformed => MalformedLength
      case Read(n, k) =>
        if n < 0 || n > bound then BadCapacity
        else
          match Entries(data[k..], n)
          case None => MalformedEntry
          case Some((path, tail)) =>
            if path != [] && ValidPath(ms, path) then Resolved(At(ms, path), tail) else OutOfRange
  }

  lemma {:induction false} EntriesSnoc(data: seq<Byte>, n: nat)
    ensures Entries(data, n + 1) ==
            match Entries(data, n)
            case None => None
            case Some((path, tail)) =>
              match Varint(tail)
              case Malformed => None
              case Read(v, k) => Some((path + [v], tail[k..]))
  {
    if n == 0 {
      match Varint(data)
      case Malformed =>
      case Read(v, k) =>
        assert Entries(data[k..], 0) == Some(([], data[k..]));
        assert [v] + [] == [] + [v];
    } else {
      match Varint(data)
      case Malformed =>
      case Read(v, k) =>
        EntriesSnoc(data[k..], n - 1);
        match Entries(data[k..], n - 1)
        case None =>
        case Some(front) =>
          match Varint(front.1)
          case Malformed =>
          case Read(w, m) => assert [v] + (front.0 + [w]) == ([v] + front.0) + [w];
    }
  }

  lemma EntriesStop(data: seq<Byte>, i: nat, n: nat)
    requires i <= n && Entries(data, i).None?
    ensures Entries(data, n).None?
    decreases n - i
  {
    if i < n {
      EntriesSnoc(data, i);
      EntriesStop(data, i + 1, n);
    }
  }

  method ResolveMessage(ms: seq<Message>, data0: seq<Byte>, bound: nat) returns (r: Resolved)
    requires ms != []
    ensures r == Resolve(ms, data0, bound)
  {
    var data := data0;
    if |data| == 0 {
      return EmptyPayload;
    }
    if data[0] == 0 {
      return Resolved(ms[0], data[1..]);
    }
    var length := Varint(data);
    if length.Malformed? {
      return MalformedLength;
    }
    var n := length.value;
    data := data[length.n..];
    ghost var start := data;
    if n < 0 || n > bound {
      return BadCapacity;
    }
    var indices := [];
    for i := 0 to n
      invariant Entries(start, i) == Some((indices, data))
    {
      EntriesSnoc(start, i);
      var v := Varint(data);
      if v.Malformed? {
        EntriesStop(start, i + 1, n);
        return MalformedEntry;
      }
      indices := indices + [v.value];
      data := data[v.n..];
    }
    var msg := DescendIndices(ms, indices);
    if msg.None? {
      return OutOfRange;
    }
    return Resolved(msg.value, data);
  }

  // ----- Encoding a path -----

  function PutEntries(path: seq<int>): seq<Byte> {
    if path == [] then [] else PutVarint(path[0]) + PutEntries(path[1..])
  }

  /** The explicit form: the length, then the indices. */
  function EncodePath(path: seq<int>): seq<Byte> { PutVarint(|path|) + PutEntries(path) }

  lemma {:induction false} EntriesRoundTrip(path: seq<int>, tail: seq<Byte>)
    requires forall i :: 0 <= i < |path| ==> 0 <= path[i] < TWO63
    ensures Entries(PutEntries(path) + tail, |path|) == Some((path, tail))
  {
    if path == [] {
      assert PutEntries(path) + tail == tail;
    } else {
      var rest := PutEntries(path[1..]) + tail;
      assert PutEntries(path) + tail == PutVarint(path[0]) + rest;
      VarintRoundTrip(path[0], rest);
      assert (PutVarint(path[0]) + rest)[|PutVarint(path[0])|..] == rest;
      EntriesRoundTrip(path[1..], tail);
      assert path == [path[0]] + path[1..];
    }
  }

  /** The explicit form of a nonempty path never begins with the shorthand byte. */
  lemma NoCollision(path: seq<int>)
    requires path != []
    ensures EncodePath(path)[0] != 0
  {
    FirstByteNonZero(ZigZag(|path|));
  }

  lemma {:induction false} IndicesInRange(ms: seq<Message>, path: seq<int>)
    requires ValidPath(ms, path)
    ensures forall i :: 0 <= i < |path| ==> 0 <= path[i]
    decreases |path|
  {
    if path != [] {
      IndicesInRange(ms[path[0]].nested, path[1..]);
    }
  }

  /** Resolving the explicit form of any path gives its message and exactly the bytes that
      follow; a path that leads nowhere is reported as out of range, and one that is longer
      than a slice can be is not read. */
  lemma PathRoundTrip(ms: seq<Message>, path: seq<int>, tail: seq<Byte>, bound: nat)
    requires ms != [] && path != [] && |path| < TWO63
    requires forall i :: 0 <= i < |path| ==> 0 <= path[i] < TWO63
    ensures Resolve(ms, EncodePath(path) + tail, bound) ==
            if |path| > bound then BadCapacity
            else if ValidPath(ms, path) then Resolved(At(ms, path), tail) else OutOfRange
  {
    var data := EncodePath(path) + tail;
    NoCollision(path);
    var rest := PutEntries(path) + tail;
    assert data == PutVarint(|path|) + rest;
    VarintRoundTrip(|path|, rest);
    assert data[|PutVarint(|path|)|..] == rest;
    EntriesRoundTrip(path, tail);
  }

  /** The shorthand byte means the explicit path [0]. */
  lemma ShorthandAgrees(ms: seq<Message>, tail: seq<Byte>, bound: nat)
    requires ms != []
    ensures Resolve(ms, [0] + tail, bound) == Resolved(ms[0], tail)
    ensures bound > 0 ==> Resolve(ms, EncodePath([0]) + tail, bound) == Resolve(ms, [0] + tail, bound)
  {
    PathRoundTrip(ms, [0], tail, bound);
    assert ([0] + tail)[1..] == tail;
  }

  lemma {:induction false} EntriesTail(data: seq<Byte>, n: nat)
    requires Entries(data, n).Some?
    ensures var tail := Entries(data, n).value.1; |tail| <= |data| && data[|data| - |tail|..] == tail
  {
    if n > 0 {
      EntriesTail(data[Varint(data).n..], n - 1);
    }
  }

  /** Whatever the bytes, a resolved message is the one at some path of the tree,
      and the tail is the end of the payload. */
  lemma ResolveSound(ms: seq<Message>, data: seq<Byte>, bound: nat)
    requires ms != [] && Resolve(ms, data, bound).Resolved?
    ensures exists path :: path != [] && ValidPath(ms, path) && At(ms, path) == Resolve(ms, data, bound).message
    ensures var tail := Resolve(ms, data, bound).tail; |tail| < |data| && data[|data| - |tail|..] == tail
  {
    if data[0] == 0 {
      assert ValidPath(ms, [0]) && At(ms, [0]) == ms[0];
    } else {
      var length := Varint(data);
      var entries := Entries(data[length.n..], length.value);
      EntriesTail(data[length.n..], length.value);
      assert ValidPath(ms, entries.value.0);
    }
  }

  lemma Parity(data: seq<Byte>)
    requires data != [] && Uvarint(data, 0).Read?
    ensures Uvarint(data, 0).value % 2 == data[0] % 2
  {
  }

  /** The reader panics exactly on a payload that starts with a well-formed varint whose first
      byte is odd, which makes the length negative, or whose value is more than a slice can hold. */
  lemma PanicsExactly(ms: seq<Message>, data: seq<Byte>, bound: nat)
    requires ms != []
    ensures Resolve(ms, data, bound).BadCapacity? <==>
            data != [] && Varint(data).Read? && (data[0] % 2 == 1 || Varint(data).value > bound)
  {
    if data != [] && Varint(data).Read? {
      Parity(data);
    }
  }

  /** A payload that starts with a nonzero length makes the reader panic exactly when no slice
      can have that length. */
  lemma EveryBadLengthPanics(ms: seq<Message>, n: int, tail: seq<Byte>, bound: nat)
    requires ms != [] && -TWO63 <= n < TWO63
    ensures n != 0 ==> (Resolve(ms, PutVarint(n) + tail, bound).BadCapacity? <==> n < 0 || n > bound)
  {
    VarintRoundTrip(n, tail);
    if n != 0 {
      FirstByteNonZero(ZigZag(n));
    }
  }

  // ----- What resolves, for any bytes -----

  /** The bytes are one varint and nothing else. */
  predicate IsEntry(p: seq<Byte>, v: int) { Varint(p) == Read(v, |p|) }

  predicate AreEntries(parts: seq<seq<Byte>>, path: seq<int>) {
    |parts| == |path| && forall i :: 0 <= i < |parts| ==> IsEntry(parts[i], path[i])
  }

  function Flat(parts: seq<seq<Byte>>): seq<Byte> { if parts == [] then [] else parts[0] + Flat(parts[1..]) }

  lemma {:induction false} UvarintPrefix(data: seq<Byte>, i: nat)
    requires Uvarint(data, i).Read?
    ensures Uvarint(data[..Uvarint(data, i).n], i) == Uvarint(data, i)
    decreases |data|
  {
    var p := data[..Uvarint(data, i).n];
    if data[0] >= 128 {
      UvarintPrefix(data[1..], i + 1);
      assert p[1..] == data[1..][..Uvarint(data[1..], i + 1).n];
    }
  }

  lemma {:induction false} UvarintExtends(p: seq<Byte>, rest: seq<Byte>, i: nat)
    requires Uvarint(p, i).Read?
    ensures Uvarint(p + rest, i) == Uvarint(p, i)
    decreases |p|
  {
    if p[0] >= 128 {
      UvarintExtends(p[1..], rest, i + 1);
      assert (p + rest)[1..] == p[1..] + rest;
    }
  }

  lemma EntryFirst(p: seq<Byte>, v: int, rest: seq<Byte>)
    requires IsEntry(p, v)
    ensures Varint(p + rest) == Read(v, |p|) && (p + rest)[|p|..] == rest
  {
    UvarintExtends(p, rest, 0);
  }

  lemma FirstEntry(data: seq<Byte>)
    requires Varint(data).Read?
    ensures var n := Varint(data).n; IsEntry(data[..n], Varint(data).value) && data == data[..n] + data[n..]
  {
    UvarintPrefix(data, 0);
  }

  lemma {:induction false} EntriesParts(data: seq<Byte>, n: nat) returns (parts: seq<seq<Byte>>)
    requires Entries(data, n).Some?
    ensures var (path, tail) := Entries(data, n).value;
            AreEntries(parts, path) && |path| == n && data == Flat(parts) + tail
  {
    if n == 0 {
      parts := [];
    } else {
      var v := Varint(data);
      FirstEntry(data);
      var more := EntriesParts(data[v.n..], n - 1);
      parts := [data[..v.n]] + more;
      assert parts[1..] == more;
      var (path, tail) := Entries(data, n).value;
      assert data == data[..v.n] + (Flat(more) + tail);
    }
  }

  lemma {:induction false} PartsEntries(parts: seq<seq<Byte>>, path: seq<int>, tail: seq<Byte>)
    requires AreEntries(parts, path)
    ensures Entries(Flat(parts) + tail, |path|) == Some((path, tail))
  {
    if parts == [] {
      assert Flat(parts) + tail == tail && path == [];
    } else {
      var rest := Flat(parts[1..]) + tail;
      assert Flat(parts) + tail == parts[0] + rest;
      assert IsEntry(parts[0], path[0]);
      EntryFirst(parts[0], path[0], rest);
      PartsEntries(parts[1..], path[1..], tail);
      assert path == [path[0]] + path[1..];
    }
  }

  /** The data is the length of a path, its indices and the tail, and m is the message there. */
  ghost predicate Explicit(ms: seq<Message>, data: seq<Byte>, m: Message, tail: seq<Byte>,
                           head: seq<Byte>, parts: seq<seq<Byte>>, path: seq<int>)
  {
    && IsEntry(head, |path|) && AreEntries(parts, path) && data == head + (Flat(parts) + tail)
    && path != [] && ValidPath(ms, path) && m == At(ms, path)
  }

  /** A payload without the shorthand resolves exactly when it is the length of a path, as many
      indices, each a whole varint, that lead to the message, and the tail. */
  lemma ResolvesExactly(ms: seq<Message>, data: seq<Byte>, bound: nat, m: Message, tail: seq<Byte>)
    requires ms != [] && data != [] && data[0] != 0
    ensures Resolve(ms, data, bound) == Resolved(m, tail) <==>
            exists head, parts, path :: Explicit(ms, data, m, tail, head, parts, path) && |path| <= bound
  {
    if Resolve(ms, data, bound) == Resolved(m, tail) {
      var n := Varint(data);
      FirstEntry(data);
      var parts := EntriesParts(data[n.n..], n.value);
      var path := Entries(data[n.n..], n.value).value.0;
      assert Explicit(ms, data, m, tail, data[..n.n], parts, path) && |path| <= bound;
    }
    if head, parts, path :| Explicit(ms, data, m, tail, head, parts, path) && |path| <= bound {
      EntryFirst(head, |path|, Flat(parts) + tail);
      PartsEntries(parts, path, tail);
    }
  }
}
