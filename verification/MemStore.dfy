/** The capped in-memory event store (pkg/events/store.go). Buffers are Go
    slices: an array shared by reference and a length. */
module MemStore {
  import opened Events
  import Sequences

  const DEFAULT_CAP := 100_000

  datatype Slice = Slice(data: array<Event>, len: nat)

  function OnStream(k: string): Event -> bool { (e: Event) => e.stream == k }
  function StreamOf(h: seq<Event>, k: string): seq<Event> { Sequences.Filter(h, OnStream(k)) }

  function LastN(cap: nat, s: seq<Event>): (r: seq<Event>)
    ensures |r| == if |s| <= cap then |s| else cap
  {
    if |s| <= cap then s else s[|s| - cap..]
  }

  /** What a stream retains of the appended history. */
  function Retained(cap: nat, h: seq<Event>, k: string): seq<Event> { LastN(cap, StreamOf(h, k)) }

  lemma RetainedSnoc(cap: nat, h: seq<Event>, e: Event, k: string)
    requires cap > 0
    ensures Retained(cap, h + [e], k) ==
            if e.stream != k then Retained(cap, h, k)
            else
              var r := Retained(cap, h, k);
              (if |r| >= cap then r[1..] else r) + [e]
  {
    Sequences.FilterConcat(h, [e], OnStream(k));
  }

  /** The bounds of an inclusive time range; 0 leaves a side open. */
  predicate InRange(e: Event, from: int, to: int) {
    !(from != 0 && e.ts < from) && !(to != 0 && e.ts > to)
  }

  function Within(from: int, to: int): Event -> bool { (e: Event) => InRange(e, from, to) }

  /** Sum of the retained lengths over a set of streams. */
  ghost function RetainedTotal(cap: nat, h: seq<Event>, keys: set<string>): nat {
    if keys == {} then 0
    else
      var k :| k in keys;
      |Retained(cap, h, k)| + RetainedTotal(cap, h, keys - {k})
  }

  lemma TotalSplit(cap: nat, h: seq<Event>, keys: set<string>, k: string)
    requires k in keys
    ensures RetainedTotal(cap, h, keys) == |Retained(cap, h, k)| + RetainedTotal(cap, h, keys - {k})
    decreases |keys|
  {
    var c :| c in keys && RetainedTotal(cap, h, keys) == |Retained(cap, h, c)| + RetainedTotal(cap, h, keys - {c});
    if c != k {
      TotalSplit(cap, h, keys - {c}, k);
      TotalSplit(cap, h, keys - {k}, c);
      assert keys - {c} - {k} == keys - {k} - {c};
    }
  }

  lemma TotalUnchanged(cap: nat, h: seq<Event>, e: Event, keys: set<string>)
    requires cap > 0 && e.stream !in keys
    ensures RetainedTotal(cap, h + [e], keys) == RetainedTotal(cap, h, keys)
    decreases |keys|
  {
    if keys != {} {
      var k :| k in keys;
      TotalSplit(cap, h + [e], keys, k);
      TotalSplit(cap, h, keys, k);
      RetainedSnoc(cap, h, e, k);
      TotalUnchanged(cap, h, e, keys - {k});
    }
  }

  lemma {:induction false} NoEvents(h: seq<Event>, k: string)
    requires forall e :: e in h ==> e.stream != k
    ensures StreamOf(h, k) == []
  {
    if h != [] {
      assert h[0] in h;
      NoEvents(h[1..], k);
    }
  }

  /** One append changes the total by one, minus one when the stream was full. */
  lemma NewTotal(cap: nat, h: seq<Event>, e: Event, keys: set<string>, keys': set<string>)
    requires cap > 0 && keys' == keys + {e.stream}
    requires e.stream !in keys ==> StreamOf(h, e.stream) == []
    ensures RetainedTotal(cap, h + [e], keys') ==
            RetainedTotal(cap, h, keys) + (if |Retained(cap, h, e.stream)| >= cap then 0 else 1)
  {
    var k := e.stream;
    TotalSplit(cap, h + [e], keys', k);
    RetainedSnoc(cap, h, e, k);
    if k in keys {
      TotalSplit(cap, h, keys, k);
      assert keys' - {k} == keys - {k};
    } else {
      assert keys' - {k} == keys;
    }
    TotalUnchanged(cap, h, e, keys' - {k});
  }

  /** `copy(buf, buf[1:])`: drops the oldest event in place. */
  method ShiftLeft(a: array<Event>, len: nat)
    requires 0 < len <= a.Length
    modifies a
    ensures a[..len - 1] == old(a[1..len])
  {
    for i := 0 to len - 1
      invariant forall j :: 0 <= j < i ==> a[j] == old(a[j + 1])
      invariant forall j :: i <= j < len ==> a[j] == old(a[j])
    {
      a[i] := a[i + 1];
    }
  }

  /** Go's append: in place while the array has room, else into a larger fresh one. */
  method Push(buf: Slice, e: Event) returns (r: Slice)
    requires buf.len <= buf.data.Length
    modifies buf.data
    ensures r.len == buf.len + 1 <= r.data.Length
    ensures r.data[..r.len] == old(buf.data[..buf.len]) + [e]
    ensures r.data == buf.data || fresh(r.data)
  {
    if buf.len < buf.data.Length {
      buf.data[buf.len] := e;
      return Slice(buf.data, buf.len + 1);
    }
    var bigger := new Event[2 * buf.len + 1](_ => e);
    for i := 0 to buf.len
      invariant buf.data[..] == old(buf.data[..])
      invariant bigger.Length == 2 * buf.len + 1
      invariant forall j :: 0 <= j < i ==> bigger[j] == buf.data[j]
      invariant forall j :: i <= j < bigger.Length ==> bigger[j] == e
    {
      bigger[i] := buf.data[i];
    }
    return Slice(bigger, buf.len + 1);
  }

  /** make and copy. */
  method CopyOf(src: Slice) returns (out: array<Event>)
    requires 0 < src.len <= src.data.Length
    ensures fresh(out) && out[..] == src.data[..src.len]
  {
    var first := src.data[0];
    out := new Event[src.len](_ => first);
    for i := 0 to src.len
      invariant out.Length == src.len
      invariant forall j :: 0 <= j < i ==> out[j] == src.data[j]
    {
      out[i] := src.data[i];
    }
  }

  class MemStore {
    const capPerStream: nat
    var byStream: map<string, Slice>
    var total: int
    ghost var history: seq<Event>

    ghost function Repr(): set<object>
      reads `byStream
    {
      set k | k in byStream :: byStream[k].data
    }

    ghost predicate Valid()
      reads this, Repr()
    {
      && Separate()
      && Keeps(history)
      && total == RetainedTotal(capPerStream, history, byStream.Keys)
      && (forall e :: e in history ==> e.stream in byStream)
    }

    ghost function Buffer(k: string): seq<Event>
      reads `byStream, Repr()
    {
      if k in byStream && byStream[k].len <= byStream[k].data.Length then byStream[k].data[..byStream[k].len] else []
    }

    constructor (cap: int)
      ensures Valid() && history == [] && byStream == map[]
      ensures capPerStream == if cap <= 0 then DEFAULT_CAP else cap
    {
      capPerStream := if cap <= 0 then DEFAULT_CAP else cap;
      byStream, total, history := map[], 0, [];
    }

    /** The buffer of one stream after appending e: evict the oldest if full, then append. */
    method Grow(buf: Slice, e: Event) returns (r: Slice, evicted: bool)
      requires capPerStream > 0 && buf.len <= buf.data.Length
      modifies buf.data
      ensures r.len <= r.data.Length && (r.data == buf.data || fresh(r.data))
      ensures evicted <==> buf.len >= capPerStream
      ensures var b := old(buf.data[..buf.len]);
              r.data[..r.len] == (if |b| >= capPerStream then b[1..] else b) + [e]
    {
      r := buf;
      evicted := buf.len >= capPerStream;
      if evicted {
        ShiftLeft(buf.data, buf.len);
        r := Slice(buf.data, buf.len - 1);
      }
      r := Push(r, e);
    }

    /** Buffers lie within their arrays, and no two streams share one. */
    ghost predicate Separate()
      reads `byStream
    {
      && capPerStream > 0
      && (forall k :: k in byStream ==> byStream[k].len <= byStream[k].data.Length)
      && (forall k, l :: k in byStream && l in byStream && k != l ==> byStream[k].data != byStream[l].data)
    }

    /** Every buffer is what its stream retains of the history. */
    ghost predicate Keeps(h: seq<Event>)
      reads `byStream, Repr()
    {
      forall k :: Buffer(k) == Retained(capPerStream, h, k)
    }

    /** The buffers and the count after appending e. */
    method Insert(e: Event)
      requires Separate()
      modifies this`byStream, this`total, Repr()
      ensures Separate() && fresh(Repr() - old(Repr()))
      ensures byStream.Keys == old(byStream.Keys) + {e.stream}
      ensures total == old(total) + (if |old(Buffer(e.stream))| >= capPerStream then 0 else 1)
      ensures Buffer(e.stream) == (if |old(Buffer(e.stream))| >= capPerStream then old(Buffer(e.stream))[1..]
                                   else old(Buffer(e.stream))) + [e]
      ensures forall k :: k != e.stream ==> Buffer(k) == old(Buffer(k))
    {
      var buf;
      if e.stream in byStream {
        buf := byStream[e.stream];
      } else {
        var none := new Event[0];
        buf := Slice(none, 0);
      }
      ghost var b := buf.data[..buf.len];
      assert b == Buffer(e.stream);
      var evicted;
      buf, evicted := Grow(buf, e);
      if evicted {
        total := total - 1;
      }
      byStream := byStream[e.stream := buf];
      total := total + 1;
      assert Buffer(e.stream) == buf.data[..buf.len];
      forall k | k != e.stream ensures Buffer(k) == old(Buffer(k)) {
        assert k in byStream <==> k in old(byStream);
        assert k in byStream ==> byStream[k] == old(byStream[k]) && byStream[k].data != buf.data;
      }
    }

    method InsertKept(e: Event, ghost h: seq<Event>)
      requires Separate() && Keeps(h)
      modifies this`byStream, this`total, Repr()
      ensures Separate() && Keeps(h + [e]) && fresh(Repr() - old(Repr()))
      ensures byStream.Keys == old(byStream.Keys) + {e.stream}
      ensures total == old(total) + (if |Retained(capPerStream, h, e.stream)| >= capPerStream then 0 else 1)
    {
      Insert(e);
      forall k ensures Buffer(k) == Retained(capPerStream, h + [e], k) {
        RetainedSnoc(capPerStream, h, e, k);
        assert old(Buffer(k)) == Retained(capPerStream, h, k);
      }
    }

    method Append(e: Event)
      requires Valid()
      modifies this, Repr()
      ensures Valid() && fresh(Repr() - old(Repr()))
      ensures history == old(history) + [e]
      ensures byStream.Keys == old(byStream.Keys) + {e.stream}
    {
      AppendKeepsOthers(e);
      NewTotal(capPerStream, history, e, byStream.Keys, byStream.Keys + {e.stream});
      InsertKept(e, history);
      history := history + [e];
    }

    lemma AppendKeepsOthers(e: Event)
      requires Valid()
      ensures e.stream !in byStream ==> StreamOf(history, e.stream) == []
    {
      if e.stream !in byStream {
        NoEvents(history, e.stream);
      }
    }

    /** A copy of the stream's buffer: no later append can change it. */
    method Query(stream: string) returns (out: array<Event>)
      requires Valid()
      ensures fresh(out) && out[..] == Retained(capPerStream, history, stream)
    {
      assert Keeps(history);
      if stream !in byStream || byStream[stream].len == 0 {
        out := new Event[0];
        return;
      }
      out := CopyOf(byStream[stream]);
    }

    /** The retained events in [from, to]; a zero bound is open. */
    method QueryRange(stream: string, from: int, to: int) returns (out: seq<Event>)
      requires Valid()
      ensures out == Sequences.Filter(Retained(capPerStream, history, stream), Within(from, to))
      ensures forall e :: e in out <==>
                          e in Retained(capPerStream, history, stream) &&
                          (from == 0 || from <= e.ts) && (to == 0 || e.ts <= to)
    {
      Sequences.FilterMembers(Retained(capPerStream, history, stream), Within(from, to));
      assert Keeps(history);
      out := [];
      if stream !in byStream {
        return;
      }
      var src := byStream[stream];
      for i := 0 to src.len
        invariant out == Sequences.Filter(src.data[..i], Within(from, to))
      {
        var e := src.data[i];
        assert src.data[..i + 1] == src.data[..i] + [e];
        Sequences.FilterConcat(src.data[..i], [e], Within(from, to));
        if from != 0 && e.ts < from {
          continue;
        }
        if to != 0 && e.ts > to {
          continue;
        }
        out := out + [e];
      }
    }

    method Since(stream: string, from: int) returns (out: seq<Event>)
      requires Valid()
      ensures out == Sequences.Filter(Retained(capPerStream, history, stream), Within(from, 0))
      ensures forall e :: e in out <==>
                          e in Retained(capPerStream, history, stream) && (from == 0 || from <= e.ts)
    {
      out := QueryRange(stream, from, 0);
    }

    /** `total` is kept in step with the buffers, so Len counts what is retained. */
    method Len() returns (n: int)
      requires Valid()
      ensures n == RetainedTotal(capPerStream, history, byStream.Keys)
    {
      n := total;
    }
  }

  /** A slice handed out earlier survives any later append, in-place eviction included. */
  method AppendAfterQuery(st: MemStore, stream: string, e: Event)
    returns (before: array<Event>, after: array<Event>)
    requires st.Valid()
    modifies st, st.Repr()
    ensures st.Valid()
    ensures before[..] == Retained(st.capPerStream, old(st.history), stream)
    ensures after[..] == Retained(st.capPerStream, old(st.history) + [e], stream)
  {
    before := st.Query(stream);
    st.Append(e);
    after := st.Query(stream);
  }

  /** The eval executor's cursors are lengths: reading from a cursor yields exactly
      the events appended since if and only if none of them evicted another. */
  lemma CursorsNeedNoEviction(cap: nat, h: seq<Event>, more: seq<Event>)
    requires cap > 0
    ensures var cursor, now := |LastN(cap, h)|, LastN(cap, h + more);
            (if cursor < |now| then now[cursor..] else []) == more <==> more == [] || |h| + |more| <= cap
  {
    var cursor, now := |LastN(cap, h)|, LastN(cap, h + more);
    if |h| + |more| <= cap {
      assert now[cursor..] == more;
    }
  }
}
