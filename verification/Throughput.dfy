/** The multi-threaded batch hash: workers claim chunks from a shared atomic counter (src/runtime/throughput.cpp).
    The threads are a state machine; the scheduler picks any unfinished worker for every step. */
module Throughput {
  import opened Core
  import opened Hash

  /** A worker is about to claim, is hashing slot `i` of the chunk it claimed, or has left its loop. */
  datatype Worker =
    | Claiming
    | Hashing(chunk: nat, i: nat)
    | Stopped

  datatype Options = Options(workerCount: nat, minParallelItems: nat, targetChunkItems: nat, enableParallel: bool)

  /** `selected_worker_count`; `hardware` is what the platform reports. */
  function SelectedWorkers(o: Options, items: nat, hardware: nat): (n: nat)
    ensures n >= 1 && (n <= items || n == 1)
  {
    if !o.enableParallel || items < o.minParallelItems then 1 else
    var most := if o.workerCount != 0 then o.workerCount else if hardware == 0 then 1 else hardware;
    var fewer := if most < items then most else items;
    if fewer > 1 then fewer else 1
  }

  /** `(items + chunk - 1) / chunk` in 64-bit arithmetic. */
  function ChunkCount(items: nat, chunk: nat): nat
    requires chunk > 0
  {
    (items + chunk - 1) % TWO_TO_THE_64 / chunk
  }

  function ChunkStart(chunk: nat, c: nat): nat {
    c * chunk
  }

  function ChunkEnd(items: nat, chunk: nat, c: nat): nat {
    if c * chunk + chunk < items then c * chunk + chunk else items
  }

  /** The chunk that slot `i` belongs to. */
  function ChunkOf(chunk: nat, i: nat): nat
    requires chunk > 0
  {
    i / chunk
  }

  /** The chunks tile the items. */
  lemma ChunksTile(items: nat, chunk: nat, i: nat)
    requires chunk > 0 && i < items && items + chunk - 1 < TWO_TO_THE_64
    ensures ChunkOf(chunk, i) < ChunkCount(items, chunk)
    ensures ChunkStart(chunk, ChunkOf(chunk, i)) <= i < ChunkEnd(items, chunk, ChunkOf(chunk, i))
  {
    var c := ChunkCount(items, chunk);
    var r := (items + chunk - 1) % chunk;
    assert items + chunk - 1 == c * chunk + r;
    var q := i / chunk;
    assert i == q * chunk + i % chunk;
    assert q >= c ==> q * chunk >= c * chunk;
  }

  /** Chunk `c` starts inside the batch, and its slots are its own. */
  lemma ChunkIsOwn(items: nat, chunk: nat, c: nat)
    requires chunk > 0 && 0 < items && items + chunk - 1 < TWO_TO_THE_64 && c < ChunkCount(items, chunk)
    ensures ChunkStart(chunk, c) < ChunkEnd(items, chunk, c) <= items
    ensures forall i: nat | ChunkStart(chunk, c) <= i < ChunkEnd(items, chunk, c) :: ChunkOf(chunk, i) == c
  {
    LastChunk(items, chunk, c);
    hide ChunkCount;
    forall i: nat | ChunkStart(chunk, c) <= i < ChunkEnd(items, chunk, c)
      ensures ChunkOf(chunk, i) == c
    {
      Codec.Quotient(i, chunk, c, i - c * chunk);
    }
  }

  lemma LastChunk(items: nat, chunk: nat, c: nat)
    requires chunk > 0 && 0 < items && items + chunk - 1 < TWO_TO_THE_64 && c < ChunkCount(items, chunk)
    ensures c * chunk < items
  {
    var sum := items + chunk - 1;
    var n := sum / chunk;
    var d: nat := n - 1 - c;
    assert sum == n * chunk + sum % chunk;
    assert n * chunk == c * chunk + chunk + d * chunk;
    assert d * chunk >= 0;
  }

  /** When `items + chunk - 1` overflows 64 bits there are no chunks at all. */
  lemma OverflowLosesAll(items: nat, chunk: nat)
    requires chunk > 0 && items < TWO_TO_THE_64 && chunk < TWO_TO_THE_64
    ensures ChunkCount(items, chunk) == 0 <==> items == 0 || items + chunk - 1 >= TWO_TO_THE_64
  {
    var sum := items + chunk - 1;
    if sum >= TWO_TO_THE_64 {
      assert sum % TWO_TO_THE_64 == sum - TWO_TO_THE_64 < chunk;
    } else if items > 0 {
      assert sum / chunk >= 1;
    }
  }

  // ---- The invariant of every interleaving ----

  /** Worker `w` claimed chunk `c` and has not passed slot `i`. */
  ghost predicate Holds(ws: seq<Worker>, w: nat, c: nat, i: nat)
    requires w < |ws|
  {
    ws[w].Hashing? && ws[w].chunk == c && ws[w].i <= i
  }

  /** Slot `i` is still to be written: its chunk is unclaimed, or its owner has not passed it. */
  ghost predicate Pending(ws: seq<Worker>, next: nat, chunk: nat, i: nat)
    requires chunk > 0
  {
    ChunkOf(chunk, i) >= next || exists w :: 0 <= w < |ws| && Holds(ws, w, ChunkOf(chunk, i), i)
  }

  ghost predicate Owns(ws: seq<Worker>, next: nat, items: nat, chunk: nat)
    requires chunk > 0
  {
    && (forall w | 0 <= w < |ws| && ws[w].Hashing? ::
          ws[w].chunk < next && ws[w].chunk < ChunkCount(items, chunk) &&
          ChunkStart(chunk, ws[w].chunk) <= ws[w].i <= ChunkEnd(items, chunk, ws[w].chunk))
    && (forall v, w | 0 <= v < |ws| && 0 <= w < |ws| && v != w && ws[v].Hashing? && ws[w].Hashing? ::
          ws[v].chunk != ws[w].chunk)
    && (forall w | 0 <= w < |ws| && ws[w].Stopped? :: next >= ChunkCount(items, chunk))
  }

  /** A slot is unwritten while pending; afterwards it was written exactly once and holds its message's digest. */
  ghost predicate SlotsRight(messages: seq<Bytes>, digests: seq<Bytes>, writes: seq<nat>, ws: seq<Worker>, next: nat, chunk: nat)
    requires chunk > 0 && |digests| == |writes| == |messages|
  {
    forall i | 0 <= i < |messages| ::
      if Pending(ws, next, chunk, i) then writes[i] == 0 else writes[i] == 1 && digests[i] == Sha256(messages[i])
  }

  lemma ClaimKeeps(ws: seq<Worker>, w: nat, next: nat, items: nat, chunk: nat)
    requires chunk > 0 && 0 < items && items + chunk - 1 < TWO_TO_THE_64
    requires Owns(ws, next, items, chunk) && w < |ws| && ws[w].Claiming? && next < ChunkCount(items, chunk)
    ensures var us := ws[w := Hashing(next, ChunkStart(chunk, next))];
            && Owns(us, next + 1, items, chunk)
            && forall i: nat :: Pending(us, next + 1, chunk, i) <==> Pending(ws, next, chunk, i)
  {
    ChunkIsOwn(items, chunk, next);
    var us := ws[w := Hashing(next, ChunkStart(chunk, next))];
    assert forall i: nat | ChunkOf(chunk, i) == next :: ChunkStart(chunk, next) <= i by {
      forall i: nat | ChunkOf(chunk, i) == next
        ensures ChunkStart(chunk, next) <= i
      {
        assert i == next * chunk + i % chunk;
      }
    }
    hide ChunkCount, ChunkEnd, ChunkOf, ChunkStart;
    forall i: nat
      ensures Pending(us, next + 1, chunk, i) <==> Pending(ws, next, chunk, i)
    {
      if ChunkOf(chunk, i) == next {
        assert Holds(us, w, ChunkOf(chunk, i), i);
      } else if v :| 0 <= v < |ws| && Holds(ws, v, ChunkOf(chunk, i), i) {
        assert Holds(us, v, ChunkOf(chunk, i), i);
      } else {
        assert forall v | 0 <= v < |us| && v != w :: Holds(us, v, ChunkOf(chunk, i), i) == Holds(ws, v, ChunkOf(chunk, i), i);
        assert !Holds(us, w, ChunkOf(chunk, i), i);
      }
    }
  }

  /** A worker that has passed slot `i` of its chunk leaves every other slot's status alone. */
  lemma AdvanceKeeps(ws: seq<Worker>, w: nat, next: nat, items: nat, chunk: nat)
    requires chunk > 0 && 0 < items && items + chunk - 1 < TWO_TO_THE_64
    requires Owns(ws, next, items, chunk) && w < |ws| && ws[w].Hashing?
    ensures var c, i, end := ws[w].chunk, ws[w].i, ChunkEnd(items, chunk, ws[w].chunk);
            var us := ws[w := if i < end then Hashing(c, i + 1) else Claiming];
            && Owns(us, next, items, chunk)
            && (i < end ==> Pending(ws, next, chunk, i) && !Pending(us, next, chunk, i))
            && forall j | 0 <= j < items && !(j == i < end) ::
                 Pending(us, next, chunk, j) <==> Pending(ws, next, chunk, j)
  {
    var c, i := ws[w].chunk, ws[w].i;
    var end := ChunkEnd(items, chunk, c);
    var us := ws[w := if i < end then Hashing(c, i + 1) else Claiming];
    ChunkIsOwn(items, chunk, c);
    hide ChunkCount, ChunkEnd, ChunkOf, ChunkStart;
    forall j | 0 <= j < items
      ensures Pending(us, next, chunk, j) <==> Pending(ws, next, chunk, j) && !(j == i < end)
      ensures j == i < end ==> Pending(ws, next, chunk, j)
    {
      ChunksTile(items, chunk, j);
      var k := ChunkOf(chunk, j);
      assert forall v | 0 <= v < |ws| && v != w :: Holds(us, v, k, j) == Holds(ws, v, k, j);
      assert Holds(us, w, k, j) <==> Holds(ws, w, k, j) && !(j == i < end);
      if j == i < end {
        assert k == c;
        assert forall v | 0 <= v < |ws| && v != w :: !Holds(us, v, c, j);
        assert Holds(ws, w, k, j);
      }
    }
  }

  /** Steps that leave every slot's status alone keep the slots right. */
  lemma SlotsSame(messages: seq<Bytes>, digests: seq<Bytes>, writes: seq<nat>, ws: seq<Worker>, next: nat,
                  us: seq<Worker>, next': nat, chunk: nat)
    requires chunk > 0 && |digests| == |writes| == |messages|
    requires SlotsRight(messages, digests, writes, ws, next, chunk)
    requires forall i | 0 <= i < |messages| :: Pending(us, next', chunk, i) <==> Pending(ws, next, chunk, i)
    ensures SlotsRight(messages, digests, writes, us, next', chunk)
  {}

  lemma SlotsWritten(messages: seq<Bytes>, digests: seq<Bytes>, writes: seq<nat>, ws: seq<Worker>, next: nat,
                     us: seq<Worker>, chunk: nat, i: nat)
    requires chunk > 0 && |digests| == |writes| == |messages| && i < |messages|
    requires SlotsRight(messages, digests, writes, ws, next, chunk)
    requires Pending(ws, next, chunk, i) && !Pending(us, next, chunk, i)
    requires forall j | 0 <= j < |messages| && j != i :: Pending(us, next, chunk, j) <==> Pending(ws, next, chunk, j)
    ensures SlotsRight(messages, digests[i := Sha256(messages[i])], writes[i := writes[i] + 1], us, next, chunk)
  {
    hide Sha256, Pending;
  }

  lemma AllStopped(messages: seq<Bytes>, digests: seq<Bytes>, writes: seq<nat>, ws: seq<Worker>, next: nat, chunk: nat)
    requires chunk > 0 && |messages| + chunk - 1 < TWO_TO_THE_64 && |ws| > 0 && |digests| == |writes| == |messages|
    requires Owns(ws, next, |messages|, chunk) && forall w | 0 <= w < |ws| :: ws[w].Stopped?
    requires SlotsRight(messages, digests, writes, ws, next, chunk)
    ensures forall i | 0 <= i < |messages| :: writes[i] == 1 && digests[i] == Sha256(messages[i])
  {
    hide Sha256;
    forall i | 0 <= i < |messages|
      ensures !Pending(ws, next, chunk, i)
    {
      ChunksTile(|messages|, chunk, i);
      assert ws[0].Stopped?;
    }
  }

  // ---- The measure: unclaimed chunks first, then what the workers still have in hand ----

  function Effort(w: Worker, items: nat, chunk: nat): nat {
    match w
    case Claiming => 1
    case Hashing(c, i) => 2 + if i <= ChunkEnd(items, chunk, c) then ChunkEnd(items, chunk, c) - i else 0
    case Stopped => 0
  }

  function TotalEffort(ws: seq<Worker>, items: nat, chunk: nat): nat {
    if ws == [] then 0 else Effort(ws[0], items, chunk) + TotalEffort(ws[1..], items, chunk)
  }

  lemma {:induction false} EffortStep(ws: seq<Worker>, w: nat, after: Worker, items: nat, chunk: nat)
    requires w < |ws|
    ensures TotalEffort(ws[w := after], items, chunk) ==
            TotalEffort(ws, items, chunk) - Effort(ws[w], items, chunk) + Effort(after, items, chunk)
  {
    var us := ws[w := after];
    if w == 0 {
      assert us[1..] == ws[1..];
    } else {
      assert us[1..] == ws[1..][w - 1 := after];
      EffortStep(ws[1..], w - 1, after, items, chunk);
    }
  }

  function Unclaimed(next: nat, chunks: nat): nat {
    if next < chunks then chunks - next else 0
  }

  // ---- The run ----

  ghost predicate Consistent(messages: seq<Bytes>, digests: seq<Bytes>, writes: seq<nat>, ws: seq<Worker>, next: nat, chunk: nat)
    requires chunk > 0
  {
    && |digests| == |writes| == |messages|
    && Owns(ws, next, |messages|, chunk)
    && if |messages| + chunk - 1 < TWO_TO_THE_64 then SlotsRight(messages, digests, writes, ws, next, chunk)
       else forall i | 0 <= i < |messages| :: digests[i] == [] && writes[i] == 0
  }

  /** One atomic step of worker `w`: a claim, the hashing of one slot, or the end of a chunk. */
  method StepWorker(messages: seq<Bytes>, chunk: nat, digests: seq<Bytes>, ghost writes: seq<nat>, ws: seq<Worker>, next: nat, w: nat)
    returns (digests': seq<Bytes>, ghost writes': seq<nat>, ws': seq<Worker>, next': nat)
    requires 0 < |messages| < TWO_TO_THE_64 && 0 < chunk < TWO_TO_THE_64
    requires Consistent(messages, digests, writes, ws, next, chunk)
    requires w < |ws| && !ws[w].Stopped?
    ensures |ws'| == |ws| && Consistent(messages, digests', writes', ws', next', chunk)
    ensures var chunks := ChunkCount(|messages|, chunk);
            || Unclaimed(next', chunks) < Unclaimed(next, chunks)
            || (Unclaimed(next', chunks) == Unclaimed(next, chunks) &&
                TotalEffort(ws', |messages|, chunk) < TotalEffort(ws, |messages|, chunk))
  {
    hide Sha256, ChunkCount, ChunkEnd, ChunkOf, ChunkStart, Pending, Owns, SlotsRight;
    digests', writes', next' := digests, writes, next;
    var items := |messages|;
    ghost var overflow := items + chunk - 1 >= TWO_TO_THE_64;
    match ws[w] {
      case Claiming =>
        next' := next + 1;
        if next >= ChunkCount(items, chunk) {
          ws' := ws[w := Stopped];
          StopKeeps(ws, w, next, items, chunk);
        } else {
          OverflowLosesAll(items, chunk);
          ws' := ws[w := Hashing(next, ChunkStart(chunk, next))];
          ClaimKeeps(ws, w, next, items, chunk);
        }
        if !overflow {
          SlotsSame(messages, digests, writes, ws, next, ws', next', chunk);
        }
      case Hashing(c, i) =>
        OwnedChunk(ws, w, next, items, chunk);
        AdvanceKeeps(ws, w, next, items, chunk);
        if i < ChunkEnd(items, chunk, c) {
          ws' := ws[w := Hashing(c, i + 1)];
          SlotsWritten(messages, digests, writes, ws, next, ws', chunk, i);
          digests' := digests[i := Sha256(messages[i])];
          writes' := writes[i := writes[i] + 1];
        } else {
          ws' := ws[w := Claiming];
          SlotsSame(messages, digests, writes, ws, next, ws', next, chunk);
        }
    }
    EffortStep(ws, w, ws'[w], items, chunk);
  }

  /** The thread pool of `sha256_parallel`, scheduled in any order at all. Every run ends; if the chunk arithmetic
      does not overflow every slot is written exactly once with its message's digest, whoever wrote it, and if it
      does overflow nothing is written. */
  method RunWorkers(messages: seq<Bytes>, workers: nat, chunk: nat) returns (digests: seq<Bytes>, ghost writes: seq<nat>)
    requires workers > 0 && 0 < |messages| < TWO_TO_THE_64 && 0 < chunk < TWO_TO_THE_64
    ensures |digests| == |writes| == |messages|
    ensures |messages| + chunk - 1 < TWO_TO_THE_64 ==> digests == HashAll(messages)
    ensures |messages| + chunk - 1 < TWO_TO_THE_64 ==> forall i | 0 <= i < |messages| :: writes[i] == 1
    ensures |messages| + chunk - 1 >= TWO_TO_THE_64 ==> forall i | 0 <= i < |messages| :: digests[i] == [] && writes[i] == 0
  {
    hide Sha256, ChunkCount, Owns, SlotsRight, TotalEffort;
    digests := seq(|messages|, _ => []);
    writes := seq(|messages|, _ => 0);
    var next, ws := 0, seq(workers, _ => Claiming);
    NothingClaimed(messages, digests, writes, ws, chunk);
    while exists w :: 0 <= w < |ws| && !ws[w].Stopped?
      invariant |ws| == workers
      invariant Consistent(messages, digests, writes, ws, next, chunk)
      decreases Unclaimed(next, ChunkCount(|messages|, chunk)), TotalEffort(ws, |messages|, chunk)
    {
      var w :| 0 <= w < |ws| && !ws[w].Stopped?;
      digests, writes, ws, next := StepWorker(messages, chunk, digests, writes, ws, next, w);
    }
    if |messages| + chunk - 1 < TWO_TO_THE_64 {
      AllStopped(messages, digests, writes, ws, next, chunk);
    }
  }

  lemma NothingClaimed(messages: seq<Bytes>, digests: seq<Bytes>, writes: seq<nat>, ws: seq<Worker>, chunk: nat)
    requires chunk > 0 && |digests| == |writes| == |messages|
    requires forall w | 0 <= w < |ws| :: ws[w].Claiming?
    requires forall i | 0 <= i < |messages| :: writes[i] == 0
    ensures Owns(ws, 0, |messages|, chunk)
    ensures SlotsRight(messages, digests, writes, ws, 0, chunk)
  {}

  /** A worker holds a chunk only when there are chunks, and it stays inside the batch. */
  lemma OwnedChunk(ws: seq<Worker>, w: nat, next: nat, items: nat, chunk: nat)
    requires 0 < chunk < TWO_TO_THE_64 && 0 < items < TWO_TO_THE_64 && w < |ws| && ws[w].Hashing?
    requires Owns(ws, next, items, chunk)
    ensures items + chunk - 1 < TWO_TO_THE_64
    ensures ChunkEnd(items, chunk, ws[w].chunk) <= items
  {
    OverflowLosesAll(items, chunk);
    hide ChunkCount;
  }

  lemma StopKeeps(ws: seq<Worker>, w: nat, next: nat, items: nat, chunk: nat)
    requires chunk > 0 && w < |ws| && ws[w].Claiming?
    requires Owns(ws, next, items, chunk) && next >= ChunkCount(items, chunk)
    ensures Owns(ws[w := Stopped], next + 1, items, chunk)
    ensures items + chunk - 1 < TWO_TO_THE_64 ==>
              forall i | 0 <= i < items :: Pending(ws[w := Stopped], next + 1, chunk, i) <==> Pending(ws, next, chunk, i)
  {
    hide ChunkCount, ChunkEnd, ChunkOf, ChunkStart;
    var us := ws[w := Stopped];
    forall i | 0 <= i < items && items + chunk - 1 < TWO_TO_THE_64
      ensures Pending(us, next + 1, chunk, i) <==> Pending(ws, next, chunk, i)
    {
      ChunksTile(items, chunk, i);
      assert forall v | 0 <= v < |ws| :: Holds(us, v, ChunkOf(chunk, i), i) == Holds(ws, v, ChunkOf(chunk, i), i);
    }
  }

  /** `sha256_parallel`. The result is the sequential one exactly when the chunk count does not overflow or is not
      needed. */
  method HashParallel(messages: seq<Bytes>, o: Options, hardware: nat) returns (digests: seq<Bytes>)
    requires |messages| < TWO_TO_THE_64 && o.targetChunkItems < TWO_TO_THE_64
    ensures digests == HashAll(messages) <==>
            |messages| == 0 || SelectedWorkers(o, |messages|, hardware) == 1 || |messages| + Chunk(o) - 1 < TWO_TO_THE_64
  {
    hide Sha256;
    digests := [];
    if messages == [] {
      return;
    }
    var workers := SelectedWorkers(o, |messages|, hardware);
    if workers == 1 {
      for i := 0 to |messages|
        invariant |digests| == i && forall j | 0 <= j < i :: digests[j] == Sha256(messages[j])
      {
        digests := digests + [Sha256(messages[i])];
      }
      return;
    }
    ghost var writes;
    digests, writes := RunWorkers(messages, workers, Chunk(o));
    if |messages| + Chunk(o) - 1 >= TWO_TO_THE_64 {
      assert digests[0] == [] && |HashAll(messages)[0]| == 32;
    }
  }

  function Chunk(o: Options): (c: nat)
    ensures c > 0
  {
    if o.targetChunkItems == 0 then 256 else o.targetChunkItems
  }
}
