/**
 * Search::Subscribable#split and #divide_into_size: the events already
 * recorded for a search are cut into slices, each sent to a subscriber
 * as one `{ events: }` transmission. How one event is serialised is a
 * parameter (`json`); the serialised array is built from it as
 * Array#to_json does.
 */
module Subscribable {
  import opened Wrappers

  /** TRANSMIT_DATA_SIZE_UPPER_LIMIT */
  const TransmitDataSizeUpperLimit: nat := 500000

  /** The message of the ArgumentError that `each_slice(0)` raises. */
  const InvalidSliceSize: string := "invalid slice size"

  /** One `{ events: }` transmission. */
  datatype Transmission<E> = Transmission(events: seq<E>)

  /** The serialised elements joined by commas. */
  function Joined<E>(events: seq<E>, json: E -> string): string {
    if events == [] then []
    else if |events| == 1 then json(events[0])
    else json(events[0]) + "," + Joined(events[1..], json)
  }

  /** `events.to_json` */
  function ArrayJson<E>(events: seq<E>, json: E -> string): string {
    "[" + Joined(events, json) + "]"
  }

  /** The summed lengths of the serialised elements. */
  function ElementsLength<E>(events: seq<E>, json: E -> string): nat {
    if events == [] then 0 else |json(events[0])| + ElementsLength(events[1..], json)
  }

  /** The array text is its brackets, its elements and one comma between each two of them. */
  lemma {:induction false} ArrayJsonLength<E>(events: seq<E>, json: E -> string)
    ensures |ArrayJson(events, json)| == 2 + ElementsLength(events, json) + if events == [] then 0 else |events| - 1
  {
    JoinedLength(events, json);
  }

  lemma {:induction false} JoinedLength<E>(events: seq<E>, json: E -> string)
    ensures |Joined(events, json)| == ElementsLength(events, json) + if events == [] then 0 else |events| - 1
  {
    if |events| > 1 {
      JoinedLength(events[1..], json);
    } else if |events| == 1 {
      assert events[1..] == [];
    }
  }

  /** `total.fdiv(TRANSMIT_DATA_SIZE_UPPER_LIMIT).ceil`, in exact integer arithmetic. */
  function ChunkCount(total: nat): (n: nat)
    ensures total > 0 ==> n > 0
    ensures n * TransmitDataSizeUpperLimit >= total
    ensures n > 0 ==> (n - 1) * TransmitDataSizeUpperLimit < total
  {
    (total + TransmitDataSizeUpperLimit - 1) / TransmitDataSizeUpperLimit
  }

  /** `xs.each_slice(size).to_a` for a positive size. */
  function EachSlice<E>(xs: seq<E>, size: nat): seq<seq<E>>
    requires size > 0
    decreases |xs|
  {
    if xs == [] then []
    else if |xs| <= size then [xs]
    else [xs[..size]] + EachSlice(xs[size..], size)
  }

  /** The slices, concatenated in order. */
  function Flatten<E>(slices: seq<seq<E>>): seq<E> {
    if slices == [] then [] else slices[0] + Flatten(slices[1..])
  }

  /**
   * The slices give back `xs` in order; none is empty; all but the last
   * hold `size` elements and the last at most `size`; there are
   * ceil(|xs| / size) of them.
   */
  lemma {:induction false} EachSliceShape<E>(xs: seq<E>, size: nat)
    requires size > 0
    ensures Flatten(EachSlice(xs, size)) == xs
    ensures forall i :: 0 <= i < |EachSlice(xs, size)| ==> 0 < |EachSlice(xs, size)[i]| <= size
    ensures forall i :: 0 <= i < |EachSlice(xs, size)| - 1 ==> |EachSlice(xs, size)[i]| == size
    ensures |EachSlice(xs, size)| == (|xs| + size - 1) / size
  {
    EachSliceFlatten(xs, size);
    EachSliceSizes(xs, size);
    EachSliceCount(xs, size);
  }

  lemma {:induction false} EachSliceFlatten<E>(xs: seq<E>, size: nat)
    requires size > 0
    ensures Flatten(EachSlice(xs, size)) == xs
    decreases |xs|
  {
    var r := EachSlice(xs, size);
    if xs == [] {
    } else if |xs| <= size {
      assert r[1..] == [];
    } else {
      EachSliceFlatten(xs[size..], size);
      assert r[1..] == EachSlice(xs[size..], size);
      assert xs[..size] + xs[size..] == xs;
    }
  }

  lemma {:induction false} EachSliceSizes<E>(xs: seq<E>, size: nat)
    requires size > 0
    ensures forall i :: 0 <= i < |EachSlice(xs, size)| ==> 0 < |EachSlice(xs, size)[i]| <= size
    ensures forall i :: 0 <= i < |EachSlice(xs, size)| - 1 ==> |EachSlice(xs, size)[i]| == size
    decreases |xs|
  {
    if |xs| > size {
      var r := EachSlice(xs, size);
      var rest := EachSlice(xs[size..], size);
      EachSliceSizes(xs[size..], size);
      assert forall i :: 0 < i < |r| ==> r[i] == rest[i - 1];
    }
  }

  lemma {:induction false} EachSliceCount<E>(xs: seq<E>, size: nat)
    requires size > 0
    ensures |EachSlice(xs, size)| == (|xs| + size - 1) / size
    decreases |xs|
  {
    if xs == [] {
    } else if |xs| <= size {
      assert (|xs| + size - 1) / size == 1;
    } else {
      var m := |xs[size..]|;
      EachSliceCount(xs[size..], size);
      assert |xs| + size - 1 == (m + size - 1) + size;
      PlusOneQuotient(m + size - 1, size);
    }
  }

  lemma {:induction false} PlusOneQuotient(x: nat, size: nat)
    requires size > 0
    ensures (x + size) / size == x / size + 1
  {
    var q, r := x / size, x % size;
    var q2, r2 := (x + size) / size, (x + size) % size;
    assert x == q * size + r && 0 <= r < size;
    assert x + size == q2 * size + r2 && 0 <= r2 < size;
    assert (q2 - q - 1) * size == r - r2;
    CancelStrict(q2 - q - 1, 1, size);
    CancelStrict(-1, q2 - q - 1, size);
  }

  /**
   * divide_into_size: no events give no slices; events whose array text
   * fits under `upper` give one slice; otherwise the slice size is the
   * number of events divided by the number of chunks the text would
   * fill at TRANSMIT_DATA_SIZE_UPPER_LIMIT each, and a slice size of 0
   * is an ArgumentError.
   */
  function DivideIntoSize<E>(upper: int, events: seq<E>, json: E -> string): (r: Result<seq<seq<E>>, string>)
    ensures events == [] ==> r == Ok([])
    ensures events != [] && |ArrayJson(events, json)| <= upper ==> r == Ok([events])
    ensures r.Err? ==> r.error == InvalidSliceSize
  {
    if events == [] then Ok([])
    else
      var total := |ArrayJson(events, json)|;
      if total <= upper then Ok([events])
      else
        var chunkSize := |events| / ChunkCount(total);
        if chunkSize == 0 then Err(InvalidSliceSize)
        else Ok(EachSlice(events, chunkSize))
  }

  /** split: each slice of divide_into_size at TRANSMIT_DATA_SIZE_UPPER_LIMIT as one transmission. */
  function Split<E>(events: seq<E>, json: E -> string): (r: Result<seq<Transmission<E>>, string>)
    ensures r.Ok? <==> DivideIntoSize(TransmitDataSizeUpperLimit, events, json).Ok?
    ensures r.Ok? ==> |r.value| == |DivideIntoSize(TransmitDataSizeUpperLimit, events, json).value|
    ensures r.Ok? ==> forall i :: 0 <= i < |r.value| ==>
      r.value[i].events == DivideIntoSize(TransmitDataSizeUpperLimit, events, json).value[i]
  {
    match DivideIntoSize(TransmitDataSizeUpperLimit, events, json)
    case Ok(slices) => Ok(seq(|slices|, i requires 0 <= i < |slices| => Transmission(slices[i])))
    case Err(e) => Err(e)
  }

  /**
   * When the events are divided, the slices give them back in order, no
   * slice is empty, every slice but the last holds the same number of
   * events, and there are at least as many slices as the chunk count.
   */
  lemma {:induction false} DivideShape<E>(upper: int, events: seq<E>, json: E -> string)
    requires DivideIntoSize(upper, events, json).Ok?
    ensures Flatten(DivideIntoSize(upper, events, json).value) == events
    ensures forall s :: s in DivideIntoSize(upper, events, json).value ==> s != []
    ensures |ArrayJson(events, json)| > upper && events != [] ==>
      var slices := DivideIntoSize(upper, events, json).value;
      && (forall i :: 0 <= i < |slices| - 1 ==> |slices[i]| == |events| / ChunkCount(|ArrayJson(events, json)|))
      && |slices| >= ChunkCount(|ArrayJson(events, json)|)
  {
    var slices := DivideIntoSize(upper, events, json).value;
    if events == [] {
    } else if |ArrayJson(events, json)| <= upper {
      assert slices == [events];
      assert Flatten(slices) == events + Flatten([]);
    } else {
      var n := ChunkCount(|ArrayJson(events, json)|);
      var size := |events| / n;
      EachSliceShape(events, size);
      forall s | s in slices ensures s != [] {
        var i :| 0 <= i < |slices| && slices[i] == s;
      }
      CeilingAtLeast(|events|, size, n);
    }
  }

  /** ceil(len / (len div n)) >= n for a positive quotient. */
  lemma {:induction false} CeilingAtLeast(len: nat, size: nat, n: nat)
    requires n > 0 && size == len / n && size > 0
    ensures (len + size - 1) / size >= n
  {
    var c := (len + size - 1) / size;
    assert c * size + (len + size - 1) % size == len + size - 1;
    assert (len + size - 1) % size < size;
    assert c * size >= len;
    assert n * size <= len;
    CancelFactor(n, c, size);
  }

  /** A positive factor cancels from both sides of `<=`. */
  lemma {:induction false} CancelFactor(x: int, y: int, size: int)
    requires size > 0 && x * size <= y * size
    ensures x <= y
  {
    assert (y - x) * size == y * size - x * size;
    assert (y - x) * size >= 0;
  }

  /** A positive factor cancels from both sides of `<`. */
  lemma {:induction false} CancelStrict(x: int, y: int, size: int)
    requires size > 0 && x * size < y * size
    ensures x < y
  {
    assert (y - x) * size == y * size - x * size;
    assert (y - x) * size > 0;
  }

  /**
   * divide_into_size raises exactly when the text is over `upper` and
   * there are fewer events than the chunks it would fill.
   */
  lemma {:induction false} DivideFails<E>(upper: int, events: seq<E>, json: E -> string)
    ensures DivideIntoSize(upper, events, json).Err? <==>
      events != [] && |ArrayJson(events, json)| > upper && |events| < ChunkCount(|ArrayJson(events, json)|)
  {
    if events != [] && |ArrayJson(events, json)| > upper {
      var n := ChunkCount(|ArrayJson(events, json)|);
      if |events| >= n {
        assert |events| / n >= 1 by {
          DivisionAtLeastOne(|events|, n);
        }
      }
    }
  }

  lemma {:induction false} DivisionAtLeastOne(len: nat, n: nat)
    requires 0 < n <= len
    ensures len / n >= 1
  {
    assert len == (len / n) * n + len % n;
    assert len % n < n;
  }

  /**
   * A single event whose own text fills a transmission is an
   * ArgumentError for split rather than one oversized transmission.
   */
  lemma {:induction false} OversizedEventFails<E>(e: E, json: E -> string)
    requires |json(e)| >= TransmitDataSizeUpperLimit
    ensures Split([e], json).Err?
  {
    ArrayJsonLength([e], json);
    assert [e][1..] == [];
    assert ElementsLength([e], json) == |json(e)|;
    DivideFails(TransmitDataSizeUpperLimit, [e], json);
  }

  /** The events of split's transmissions, in order, are the events given. */
  lemma {:induction false} SplitRoundTrip<E>(events: seq<E>, json: E -> string)
    requires Split(events, json).Ok?
    ensures Flatten(TransmissionEvents(Split(events, json).value)) == events
  {
    DivideShape(TransmitDataSizeUpperLimit, events, json);
    var slices := DivideIntoSize(TransmitDataSizeUpperLimit, events, json).value;
    assert TransmissionEvents(Split(events, json).value) == slices;
  }

  /** The payloads of the transmissions. */
  function TransmissionEvents<E>(ts: seq<Transmission<E>>): (r: seq<seq<E>>)
    ensures |r| == |ts|
    ensures forall i :: 0 <= i < |ts| ==> r[i] == ts[i].events
  {
    seq(|ts|, i requires 0 <= i < |ts| => ts[i].events)
  }
}
