/** Batch writes and reads (batch.go): chunking, retrying what was not processed,
    and progress reports from concurrent chunks. */
module Batch {
  import opened Base

  const MAX_WRITES := 25
  const MAX_RETRIES := 5

  // ---- Chunks ----

  function Chunks<R>(items: seq<R>, size: nat): (chunks: seq<seq<R>>)
    requires size > 0
  {
    if items == [] then []
    else if |items| <= size then [items]
    else [items[..size]] + Chunks(items[size..], size)
  }

  function Flatten<R>(chunks: seq<seq<R>>): seq<R> {
    if chunks == [] then [] else chunks[0] + Flatten(chunks[1..])
  }

  /** Chunks are not empty, not too long, all full but the last, and add up. */
  lemma {:induction false} ChunksPartition<R>(items: seq<R>, size: nat)
    requires size > 0
    ensures var chunks := Chunks(items, size);
      && Flatten(chunks) == items
      && (forall i :: 0 <= i < |chunks| ==> 0 < |chunks[i]| <= size)
      && (forall i :: 0 <= i < |chunks| - 1 ==> |chunks[i]| == size)
  {
    if items != [] && |items| <= size {
      assert Flatten([items]) == items + Flatten([items][1..]);
    } else if items != [] {
      ChunksPartition(items[size..], size);
      var rest := Chunks(items[size..], size);
      assert ([items[..size]] + rest)[1..] == rest;
      assert items == items[..size] + items[size..];
    }
  }

  method ChunkWriteRequests<R>(items: seq<R>, size: nat) returns (chunks: seq<seq<R>>)
    requires size > 0
    ensures chunks == Chunks(items, size)
  {
    chunks := [];
    var i := 0;
    assert items[0..] == items;
    while i < |items|
      invariant 0 <= i
      invariant i <= |items| ==> Chunks(items, size) == chunks + Chunks(items[i..], size)
      invariant i > |items| ==> Chunks(items, size) == chunks
      decreases |items| - i
    {
      var end := i + size;
      if end > |items| {
        end := |items|;
      }
      var chunk := items[i..end];
      if |items| - i > size {
        assert items[i..][..size] == chunk && items[i..][size..] == items[i + size..];
        Assoc(chunks, [chunk], Chunks(items[i + size..], size));
      } else {
        assert items[i..] == chunk;
      }
      chunks := chunks + [chunk];
      if i + size == |items| {
        assert items[i + size..] == [];
        assert chunks + [] == chunks;
      }
      i := i + size;
    }
    if i == |items| {
      assert items[i..] == [];
      assert chunks + [] == chunks;
    }
  }

  // ---- Retrying ----

  /** A backend's answer to a call: an error, or what it has processed and what not. */
  datatype Answer<R> = Failure | Partly(processed: seq<R>, unprocessed: seq<R>)

  /** Any backend at all: its answers may depend on everything about the call. */
  type Backend<!R> = (nat, seq<R>) -> Answer<R>

  /** It returns as unprocessed exactly what it did not process. */
  ghost predicate Honest<R(!new)>(backend: Backend<R>) {
    forall n, pending :: backend(n, pending).Partly? ==>
      multiset(backend(n, pending).processed) + multiset(backend(n, pending).unprocessed) == multiset(pending)
  }

  /** What became of a chunk; `processed` in the order of processing. */
  datatype Sent<R> = Sent(ok: bool, calls: nat, processed: seq<R>)

  /** sendBatchWrite from a given attempt on. */
  function Send<R>(backend: Backend<R>, pending: seq<R>, attempt: nat): Sent<R>
    requires attempt <= MAX_RETRIES
    decreases MAX_RETRIES - attempt
  {
    match backend(attempt, pending)
    case Failure => Sent(false, 1, [])
    case Partly(processed, unprocessed) =>
      if unprocessed == [] then Sent(true, 1, processed)
      else if attempt >= MAX_RETRIES then Sent(false, 1, processed)
      else
        var later := Send(backend, unprocessed, attempt + 1);
        Sent(later.ok, later.calls + 1, processed + later.processed)
  }

  /** Success means that every request was processed exactly once; without success
      none was processed more often than it was asked for. Never more than 6 calls. */
  lemma {:induction false} SendConserves<R(!new)>(backend: Backend<R>, pending: seq<R>, attempt: nat)
    requires attempt <= MAX_RETRIES && Honest(backend)
    ensures var sent := Send(backend, pending, attempt);
      && 1 <= sent.calls <= MAX_RETRIES + 1 - attempt
      && multiset(sent.processed) <= multiset(pending)
      && (sent.ok ==> multiset(sent.processed) == multiset(pending))
    decreases MAX_RETRIES - attempt
  {
    hide Send, Honest;
    SendStep(backend, pending, attempt);
    var answer := backend(attempt, pending);
    if answer.Partly? {
      IsHonest(backend, attempt, pending);
      assert multiset(answer.processed) <= multiset(pending);
      if answer.unprocessed != [] && attempt < MAX_RETRIES {
        SendConserves(backend, answer.unprocessed, attempt + 1);
        ProcessedInParts(answer.processed, Send(backend, answer.unprocessed, attempt + 1).processed, answer.unprocessed, pending);
      }
    }
  }

  /** Calls one after the other, each with what the one before has left. */
  ghost predicate Rounds<R>(backend: Backend<R>, rounds: seq<seq<R>>, attempt: nat) {
    forall i :: 0 <= i < |rounds| - 1 ==>
      && backend(attempt + i, rounds[i]).Partly?
      && backend(attempt + i, rounds[i]).unprocessed != []
      && backend(attempt + i, rounds[i]).unprocessed == rounds[i + 1]
  }

  /** It goes on until nothing is left, a call fails, or six calls have been made. */
  lemma {:induction false} SendGoesOn<R>(backend: Backend<R>, pending: seq<R>, attempt: nat) returns (rounds: seq<seq<R>>)
    requires attempt <= 5
    ensures attempt <= MAX_RETRIES && |rounds| == Send(backend, pending, attempt).calls > 0
    ensures rounds[0] == pending && Rounds(backend, rounds, attempt) && attempt + |rounds| <= 6
    ensures var last := backend(attempt + |rounds| - 1, rounds[|rounds| - 1]);
      && (Send(backend, pending, attempt).ok <==> last.Partly? && last.unprocessed == [])
      && (!Send(backend, pending, attempt).ok ==> last.Failure? || attempt + |rounds| == 6)
    decreases MAX_RETRIES - attempt
  {
    rounds := [pending];
    var answer := backend(attempt, pending);
    if answer.Partly? && answer.unprocessed != [] && attempt < MAX_RETRIES {
      var more := SendGoesOn(backend, answer.unprocessed, attempt + 1);
      hide Send;
      rounds := [pending] + more;
      forall i | 0 <= i < |rounds| - 1
        ensures backend(attempt + i, rounds[i]).Partly?
        ensures backend(attempt + i, rounds[i]).unprocessed != [] && backend(attempt + i, rounds[i]).unprocessed == rounds[i + 1]
      {
        assert i > 0 ==> rounds[i] == more[i - 1] && attempt + i == attempt + 1 + (i - 1);
      }
      assert rounds[|rounds| - 1] == more[|more| - 1];
      SendStep(backend, pending, attempt);
    }
  }

  /** No chunk is over a limit of the backend: 25 writes, 100 reads. */
  lemma ChunksFit<R>(items: seq<R>)
    requires items != []
    ensures forall i :: 0 <= i < |Chunks(items, MAX_WRITES)| ==> 0 < |Chunks(items, MAX_WRITES)[i]| <= 25
    ensures forall i :: 0 <= i < |Chunks(items, MAX_READS)| ==> 0 < |Chunks(items, MAX_READS)[i]| <= 100
  {
    ChunksPartition(items, MAX_WRITES);
    ChunksPartition(items, MAX_READS);
    hide Chunks;
  }

  lemma SendStep<R>(backend: Backend<R>, pending: seq<R>, attempt: nat)
    requires attempt <= MAX_RETRIES
    ensures var sent := Send(backend, pending, attempt);
      match backend(attempt, pending)
      case Failure => sent == Sent(false, 1, [])
      case Partly(processed, unprocessed) =>
        if unprocessed == [] then sent == Sent(true, 1, processed)
        else if attempt >= MAX_RETRIES then sent == Sent(false, 1, processed)
        else
          var later := Send(backend, unprocessed, attempt + 1);
          sent == Sent(later.ok, later.calls + 1, processed + later.processed)
  {
  }

  lemma ProcessedInParts<R>(now: seq<R>, later: seq<R>, unprocessed: seq<R>, pending: seq<R>)
    requires multiset(now) + multiset(unprocessed) == multiset(pending) && multiset(later) <= multiset(unprocessed)
    ensures multiset(now + later) <= multiset(pending)
    ensures multiset(later) == multiset(unprocessed) ==> multiset(now + later) == multiset(pending)
  {
    assert multiset(now + later) == multiset(now) + multiset(later);
  }

  lemma IsHonest<R(!new)>(backend: Backend<R>, n: nat, pending: seq<R>)
    requires Honest(backend) && backend(n, pending).Partly?
    ensures multiset(backend(n, pending).processed) + multiset(backend(n, pending).unprocessed) == multiset(pending)
  {
  }

  method SendBatchWrite<R>(backend: Backend<R>, items: seq<R>) returns (sent: Sent<R>)
    ensures sent == Send(backend, items, 0)
  {
    var pending, attempt, processed := items, 0, [];
    while true
      invariant 0 <= attempt <= MAX_RETRIES
      invariant var later := Send(backend, pending, attempt);
        Send(backend, items, 0) == Sent(later.ok, attempt + later.calls, processed + later.processed)
      decreases MAX_RETRIES - attempt
    {
      var answer := backend(attempt, pending);
      if answer.Failure? {
        assert processed + [] == processed;
        return Sent(false, attempt + 1, processed);
      }
      if answer.unprocessed != [] && attempt < MAX_RETRIES {
        Assoc(processed, answer.processed, Send(backend, answer.unprocessed, attempt + 1).processed);
      }
      processed := processed + answer.processed;
      if answer.unprocessed == [] {
        return Sent(true, attempt + 1, processed);
      }
      if attempt >= MAX_RETRIES {
        return Sent(false, attempt + 1, processed);
      }
      pending := answer.unprocessed;
      attempt := attempt + 1;
    }
  }

  // ---- Reading ----

  /** The items that a backend has for the keys that it processes. */
  function Fetched<K, V>(keys: seq<K>, get: K -> Option<V>): seq<V> {
    if keys == [] then []
    else (match get(keys[0]) case Some(v) => [v] case None => []) + Fetched(keys[1..], get)
  }

  lemma {:induction false} FetchedConcat<K, V>(a: seq<K>, b: seq<K>, get: K -> Option<V>)
    ensures Fetched(a + b, get) == Fetched(a, get) + Fetched(b, get)
    decreases |a|
  {
    if a == [] {
      assert a + b == b;
    } else {
      assert (a + b)[1..] == a[1..] + b;
      FetchedConcat(a[1..], b, get);
      Assoc(match get(a[0]) case Some(v) => [v] case None => [], Fetched(a[1..], get), Fetched(b, get));
    }
  }

  /** Which items come back depends only on which keys were asked for, not on their
      order or on how they were split over calls. */
  lemma {:induction false} FetchedOfSame<K, V>(a: seq<K>, b: seq<K>, get: K -> Option<V>)
    requires multiset(a) == multiset(b)
    ensures multiset(Fetched(a, get)) == multiset(Fetched(b, get))
    decreases |a|
  {
    if a == [] {
      assert |multiset(b)| == 0;
    } else {
      hide Fetched;
      var i := SameElement(a, b);
      FetchedOfSame(a[1..], b[..i] + b[i + 1..], get);
      assert a[..0] + a[1..] == a[1..];
      FetchedWithout(a, 0, get);
      FetchedWithout(b, i, get);
    }
  }

  lemma SameElement<K>(a: seq<K>, b: seq<K>) returns (i: nat)
    requires a != [] && multiset(a) == multiset(b)
    ensures i < |b| && b[i] == a[0] && multiset(b[..i] + b[i + 1..]) == multiset(a[1..])
  {
    assert a[0] in multiset(b);
    i :| 0 <= i < |b| && b[i] == a[0];
    Without(a, 0);
    Without(b, i);
    assert a[..0] + a[1..] == a[1..];
  }

  lemma Without<K>(b: seq<K>, i: nat)
    requires i < |b|
    ensures multiset(b[..i] + b[i + 1..]) == multiset(b) - multiset{b[i]}
  {
    assert b == b[..i] + ([b[i]] + b[i + 1..]);
  }

  lemma FetchedWithout<K, V>(b: seq<K>, i: nat, get: K -> Option<V>)
    requires i < |b|
    ensures multiset(Fetched(b, get)) == multiset(Fetched([b[i]], get)) + multiset(Fetched(b[..i] + b[i + 1..], get))
  {
    hide Fetched;
    var front, mid, back := b[..i], [b[i]], b[i + 1..];
    assert b == front + (mid + back);
    FetchedConcat(front, mid + back, get);
    FetchedConcat(mid, back, get);
    FetchedConcat(front, back, get);
    MiddleFirst(Fetched(front, get), Fetched(mid, get), Fetched(back, get));
  }

  lemma MiddleFirst<V>(a: seq<V>, b: seq<V>, c: seq<V>)
    ensures multiset(a + (b + c)) == multiset(b) + multiset(a + c)
  {
    assert multiset(a + (b + c)) == multiset(a) + multiset(b + c);
  }

  /** sendBatchGet: the items of all calls together, or an error. */
  method SendBatchGet<K, V>(backend: Backend<K>, get: K -> Option<V>, keys: seq<K>) returns (r: Result<seq<V>>)
    ensures var sent := Send(backend, keys, 0);
      r == if sent.ok then Ok(Fetched(sent.processed, get)) else Err
  {
    var pending, attempt, allItems := keys, 0, [];
    ghost var processed: seq<K> := [];
    while true
      invariant 0 <= attempt <= MAX_RETRIES
      invariant allItems == Fetched(processed, get)
      invariant var later := Send(backend, pending, attempt);
        Send(backend, keys, 0) == Sent(later.ok, attempt + later.calls, processed + later.processed)
      decreases MAX_RETRIES - attempt
    {
      var answer := backend(attempt, pending);
      if answer.Failure? {
        return Err;
      }
      if answer.unprocessed != [] && attempt < MAX_RETRIES {
        Assoc(processed, answer.processed, Send(backend, answer.unprocessed, attempt + 1).processed);
      }
      FetchedConcat(processed, answer.processed, get);
      processed := processed + answer.processed;
      allItems := allItems + Fetched(answer.processed, get);
      if answer.unprocessed == [] {
        return Ok(allItems);
      }
      if attempt >= MAX_RETRIES {
        return Err;
      }
      pending := answer.unprocessed;
      attempt := attempt + 1;
    }
  }

  /** A read that succeeds returns, for every key, its item once. */
  lemma ReadIsComplete<K(!new), V>(backend: Backend<K>, get: K -> Option<V>, keys: seq<K>)
    requires Honest(backend) && Send(backend, keys, 0).ok
    ensures multiset(Fetched(Send(backend, keys, 0).processed, get)) == multiset(Fetched(keys, get))
  {
    SendConserves(backend, keys, 0);
    FetchedOfSame(Send(backend, keys, 0).processed, keys, get);
  }

  // ---- All chunks ----

  /** What the chunks processed; chunk i has backend i, since calls of different chunks
      may be answered differently. */
  function ProcessedBy<R>(backends: nat -> Backend<R>, chunks: seq<seq<R>>, first: nat): seq<R> {
    if chunks == [] then []
    else Send(backends(first), chunks[0], 0).processed + ProcessedBy(backends, chunks[1..], first + 1)
  }

  function CallsBy<R>(backends: nat -> Backend<R>, chunks: seq<seq<R>>, first: nat): nat {
    if chunks == [] then 0
    else Send(backends(first), chunks[0], 0).calls + CallsBy(backends, chunks[1..], first + 1)
  }

  predicate AllOk<R>(backends: nat -> Backend<R>, chunks: seq<seq<R>>, first: nat) {
    chunks == [] || (Send(backends(first), chunks[0], 0).ok && AllOk(backends, chunks[1..], first + 1))
  }

  lemma {:induction false} ChunksConserve<R(!new)>(backends: nat -> Backend<R>, chunks: seq<seq<R>>, first: nat)
    requires forall i :: Honest(backends(i))
    ensures AllOk(backends, chunks, first) ==> multiset(ProcessedBy(backends, chunks, first)) == multiset(Flatten(chunks))
    ensures multiset(ProcessedBy(backends, chunks, first)) <= multiset(Flatten(chunks))
    ensures CallsBy(backends, chunks, first) <= 6 * |chunks|
    decreases |chunks|
  {
    if chunks != [] {
      SendConserves(backends(first), chunks[0], 0);
      ChunksConserve(backends, chunks[1..], first + 1);
    }
  }

  /** A batch write that returns nil has processed every request exactly once, with at
      most 6 calls per chunk of at most 25. */
  lemma BatchWriteConserves<R(!new)>(backends: nat -> Backend<R>, requests: seq<R>)
    requires forall i :: Honest(backends(i))
    ensures var chunks := Chunks(requests, MAX_WRITES);
      && (AllOk(backends, chunks, 0) ==> multiset(ProcessedBy(backends, chunks, 0)) == multiset(requests))
      && multiset(ProcessedBy(backends, chunks, 0)) <= multiset(requests)
      && CallsBy(backends, chunks, 0) <= 6 * |chunks|
  {
    ChunksPartition(requests, MAX_WRITES);
    ChunksConserve(backends, Chunks(requests, MAX_WRITES), 0);
  }

  // ---- Progress from concurrent chunks ----

  /** A chunk's goroutine: still sending, failed, past the mutex with its value of the
      counter, or done with its callback. */
  datatype Status = Sending | Failed | Counted(value: nat) | Reported(value: nat)

  /** `reports` are the callback's arguments in the order of the calls, which need not
      be the order of the mutex. */
  datatype World = World(completed: nat, chunks: seq<Status>, reports: seq<nat>)

  predicate HasCounted(s: Status) { s.Counted? || s.Reported? }

  predicate Step(lens: seq<nat>, w: World, w': World, i: nat) {
    && |w.chunks| == |lens| && i < |lens|
    && match w.chunks[i]
       case Sending =>
         || w' == w.(chunks := w.chunks[i := Failed])
         || w' == w.(completed := w.completed + lens[i], chunks := w.chunks[i := Counted(w.completed + lens[i])])
       case Counted(value) => w' == w.(chunks := w.chunks[i := Reported(value)], reports := w.reports + [value])
       case _ => false
  }

  function CountedSum(lens: seq<nat>, chunks: seq<Status>): nat
    requires |chunks| == |lens|
  {
    if lens == [] then 0
    else CountedSum(lens[..|lens| - 1], chunks[..|lens| - 1]) + (if HasCounted(chunks[|lens| - 1]) then lens[|lens| - 1] else 0)
  }

  lemma {:induction false} SumAfter(lens: seq<nat>, chunks: seq<Status>, i: nat, s: Status)
    requires |chunks| == |lens| && i < |lens|
    ensures CountedSum(lens, chunks[i := s]) ==
      CountedSum(lens, chunks) - (if HasCounted(chunks[i]) then lens[i] else 0) + (if HasCounted(s) then lens[i] else 0)
  {
    var n := |lens| - 1;
    if i == n {
      assert chunks[i := s][..n] == chunks[..n];
    } else {
      assert chunks[i := s][..n] == chunks[..n][i := s];
      SumAfter(lens[..n], chunks[..n], i, s);
    }
  }

  ghost predicate Inv(lens: seq<nat>, w: World) {
    && |w.chunks| == |lens|
    && (forall i :: 0 <= i < |lens| ==> lens[i] > 0)
    && w.completed == CountedSum(lens, w.chunks)
    && (forall i :: 0 <= i < |lens| && HasCounted(w.chunks[i]) ==> 0 < w.chunks[i].value <= w.completed)
    && (forall i, j :: 0 <= i < j < |lens| && HasCounted(w.chunks[i]) && HasCounted(w.chunks[j]) ==> w.chunks[i].value != w.chunks[j].value)
    && (w.completed > 0 ==> exists i :: 0 <= i < |lens| && HasCounted(w.chunks[i]) && w.chunks[i].value == w.completed)
    && (forall v :: v in w.reports <==> exists i :: 0 <= i < |lens| && w.chunks[i] == Reported(v))
    && (forall i, j :: 0 <= i < j < |w.reports| ==> w.reports[i] != w.reports[j])
  }

  lemma CountKeepsInv(lens: seq<nat>, w: World, w': World, i: nat)
    requires Inv(lens, w) && Step(lens, w, w', i) && w.chunks[i].Sending?
    ensures Inv(lens, w')
  {
    SumAfter(lens, w.chunks, i, w'.chunks[i]);
    assert w'.chunks == w.chunks[i := w'.chunks[i]];
    hide CountedSum;
    assert forall v, j :: 0 <= j < |lens| ==> (w'.chunks[j] == Reported(v) <==> w.chunks[j] == Reported(v));
    if w'.completed > 0 {
      if w'.chunks[i].Counted? {
        assert HasCounted(w'.chunks[i]) && w'.chunks[i].value == w'.completed;
      } else {
        var j :| 0 <= j < |lens| && HasCounted(w.chunks[j]) && w.chunks[j].value == w.completed;
        assert HasCounted(w'.chunks[j]) && w'.chunks[j].value == w'.completed;
      }
    }
  }

  lemma ReportKeepsInv(lens: seq<nat>, w: World, w': World, i: nat)
    requires Inv(lens, w) && Step(lens, w, w', i) && w.chunks[i].Counted?
    ensures Inv(lens, w')
  {
    SumAfter(lens, w.chunks, i, w'.chunks[i]);
    hide CountedSum;
    var value := w.chunks[i].value;
    assert forall j :: 0 <= j < |lens| && j != i ==> w'.chunks[j] == w.chunks[j];
    if w'.completed > 0 {
      var j :| 0 <= j < |lens| && HasCounted(w.chunks[j]) && w.chunks[j].value == w.completed;
      assert HasCounted(w'.chunks[j]) && w'.chunks[j].value == w'.completed;
    }
    forall v
      ensures v in w'.reports <==> exists j :: 0 <= j < |lens| && w'.chunks[j] == Reported(v)
    {
      if v == value {
        assert w'.reports[|w.reports|] == v && w'.chunks[i] == Reported(v);
      } else {
        assert v in w'.reports <==> v in w.reports;
        if j :| 0 <= j < |lens| && w.chunks[j] == Reported(v) {
          assert w'.chunks[j] == Reported(v);
        }
      }
    }
    assert value !in w.reports;
  }

  function Start(lens: seq<nat>): World { World(0, seq(|lens|, i => Sending), []) }

  ghost predicate Interleaving(lens: seq<nat>, run: seq<World>) {
    run != [] && run[0] == Start(lens) && forall n :: 0 < n < |run| ==> Next(lens, run[n - 1], run[n])
  }

  ghost predicate Next(lens: seq<nat>, w: World, w': World) { exists i: nat :: Step(lens, w, w', i) }

  lemma {:induction false} NothingCounted(lens: seq<nat>, chunks: seq<Status>)
    requires |chunks| == |lens| && forall i :: 0 <= i < |chunks| ==> chunks[i] == Sending
    ensures CountedSum(lens, chunks) == 0
  {
    if lens != [] {
      NothingCounted(lens[..|lens| - 1], chunks[..|lens| - 1]);
    }
  }

  lemma {:induction false} RunsKeepInv(lens: seq<nat>, run: seq<World>, n: nat)
    requires Interleaving(lens, run) && n < |run| && forall i :: 0 <= i < |lens| ==> lens[i] > 0
    ensures Inv(lens, run[n])
  {
    if n == 0 {
      NothingCounted(lens, run[0].chunks);
    } else {
      hide Inv, CountedSum, Start;
      RunsKeepInv(lens, run, n - 1);
      assert Next(lens, run[n - 1], run[n]);
      var i: nat :| Step(lens, run[n - 1], run[n], i);
      if run[n - 1].chunks[i].Sending? {
        CountKeepsInv(lens, run[n - 1], run[n], i);
      } else {
        ReportKeepsInv(lens, run[n - 1], run[n], i);
      }
    }
  }

  function Sum(lens: seq<nat>): nat { if lens == [] then 0 else Sum(lens[..|lens| - 1]) + lens[|lens| - 1] }

  lemma {:induction false} AllCounted(lens: seq<nat>, chunks: seq<Status>)
    requires |chunks| == |lens| && forall i :: 0 <= i < |chunks| ==> HasCounted(chunks[i])
    ensures CountedSum(lens, chunks) == Sum(lens)
  {
    if lens != [] {
      AllCounted(lens[..|lens| - 1], chunks[..|lens| - 1]);
    }
  }

  /** Under any interleaving of the chunks the progress values are distinct; when all
      chunks are done without failure, the greatest one is the total. */
  lemma ProgressIsDistinct(lens: seq<nat>, run: seq<World>, n: nat)
    requires Interleaving(lens, run) && n < |run| && forall i :: 0 <= i < |lens| ==> lens[i] > 0
    ensures forall i, j :: 0 <= i < j < |run[n].reports| ==> run[n].reports[i] != run[n].reports[j]
    ensures |run[n].chunks| == |lens|
    ensures lens != [] && (forall i :: 0 <= i < |lens| ==> run[n].chunks[i].Reported?) ==>
      Sum(lens) in run[n].reports && forall v :: v in run[n].reports ==> v <= Sum(lens)
  {
    RunsKeepInv(lens, run, n);
    var w := run[n];
    if lens != [] && forall i :: 0 <= i < |lens| ==> w.chunks[i].Reported? {
      AllCounted(lens, w.chunks);
      hide CountedSum, Interleaving;
      assert HasCounted(w.chunks[0]) && 0 < w.chunks[0].value <= w.completed;
      var i :| 0 <= i < |lens| && HasCounted(w.chunks[i]) && w.chunks[i].value == w.completed;
      assert w.chunks[i] == Reported(Sum(lens));
      forall v | v in w.reports
        ensures v <= Sum(lens)
      {
        var j :| 0 <= j < |lens| && w.chunks[j] == Reported(v);
        assert HasCounted(w.chunks[j]);
      }
    }
  }

  lemma {:induction false} LengthsAddUp<R>(chunks: seq<seq<R>>)
    ensures Sum(Lengths(chunks)) == |Flatten(chunks)|
  {
    if chunks != [] {
      var n := |chunks| - 1;
      LengthsAddUp(chunks[..n]);
      assert Lengths(chunks)[..n] == Lengths(chunks[..n]);
      FlattenSnoc(chunks[..n], chunks[n]);
      assert chunks == chunks[..n] + [chunks[n]];
    }
  }

  /** So for the chunks of a batch write: whatever the interleaving, no progress value
      comes twice, and when all chunks succeed the greatest is the number of requests. */
  lemma BatchProgress<R>(requests: seq<R>, run: seq<World>, n: nat)
    requires requests != [] && Interleaving(Lengths(Chunks(requests, MAX_WRITES)), run) && n < |run|
    ensures forall i, j :: 0 <= i < j < |run[n].reports| ==> run[n].reports[i] != run[n].reports[j]
    ensures (forall i :: 0 <= i < |run[n].chunks| ==> run[n].chunks[i].Reported?) ==>
      |requests| in run[n].reports && forall v :: v in run[n].reports ==> v <= |requests|
  {
    var chunks := Chunks(requests, MAX_WRITES);
    ChunksPartition(requests, MAX_WRITES);
    LengthsAddUp(chunks);
    assert chunks != [];
    hide Interleaving, Flatten, Chunks;
    ProgressIsDistinct(Lengths(chunks), run, n);
  }

  function Lengths<R>(chunks: seq<seq<R>>): seq<nat> { seq(|chunks|, i requires 0 <= i < |chunks| => |chunks[i]|) }

  lemma {:induction false} FlattenSnoc<R>(chunks: seq<seq<R>>, last: seq<R>)
    ensures Flatten(chunks + [last]) == Flatten(chunks) + last
  {
    if chunks == [] {
      assert [] + [last] == [last];
      assert Flatten([last]) == last + Flatten([last][1..]);
    } else {
      assert (chunks + [last])[1..] == chunks[1..] + [last];
      FlattenSnoc(chunks[1..], last);
    }
  }

  /** executeBatchWrite with a concurrency of one: the chunks in order, a progress
      report after each that succeeds. */
  method ExecuteBatchWrite<R>(backends: nat -> Backend<R>, requests: seq<R>) returns (ok: bool, reports: seq<nat>)
    ensures ok == AllOk(backends, Chunks(requests, MAX_WRITES), 0)
    ensures forall i, j :: 0 <= i < j < |reports| ==> reports[i] < reports[j]
    ensures ok && requests != [] ==> reports != [] && reports[|reports| - 1] == |requests|
  {
    var chunks := ChunkWriteRequests(requests, MAX_WRITES);
    ChunksPartition(requests, MAX_WRITES);
    ok, reports := true, [];
    var completed := 0;
    assert chunks[0..] == chunks;
    for i := 0 to |chunks|
      invariant AllOk(backends, chunks, 0) == (ok && AllOk(backends, chunks[i..], i))
      invariant forall j, k :: 0 <= j < k < |reports| ==> reports[j] < reports[k]
      invariant if reports == [] then completed == 0 else reports[|reports| - 1] == completed
      invariant ok ==> completed == |Flatten(chunks[..i])| && (i > 0 ==> reports != [])
    {
      hide Send, Chunks;
      assert chunks[i..][1..] == chunks[i + 1..];
      var sent := SendBatchWrite(backends(i), chunks[i]);
      if sent.ok {
        assert chunks[..i + 1] == chunks[..i] + [chunks[i]];
        FlattenSnoc(chunks[..i], chunks[i]);
        completed := completed + |chunks[i]|;
        reports := reports + [completed];
      } else {
        ok := false;
      }
    }
    assert chunks[..|chunks|] == chunks;
  }

  // ---- BatchGet ----

  const MAX_READS := 100

  /** Unmarshal on each item. */
  function Decoded<V, T>(items: seq<V>, decode: V -> Result<T>): Result<seq<T>> {
    if items == [] then Ok([])
    else
      match decode(items[0])
      case Err => Err
      case Ok(x) => (match Decoded(items[1..], decode) case Ok(more) => Ok([x] + more) case Err => Err)
  }

  method DecodeItems<V, T>(before: seq<T>, items: seq<V>, decode: V -> Result<T>) returns (r: Result<seq<T>>)
    ensures r == match Decoded(items, decode) case Ok(xs) => Ok(before + xs) case Err => Err
  {
    var results := before;
    assert items[0..] == items && before[|before|..] == [];
    if Decoded(items, decode).Ok? {
      assert [] + Decoded(items, decode).value == Decoded(items, decode).value;
    }
    for i := 0 to |items|
      invariant |results| == |before| + i && before <= results
      invariant Decoded(items, decode) == match Decoded(items[i..], decode) case Ok(xs) => Ok(results[|before|..] + xs) case Err => Err
    {
      assert items[i..][1..] == items[i + 1..];
      var x := decode(items[i]);
      if x.Err? {
        return Err;
      }
      if Decoded(items[i + 1..], decode).Ok? {
        Assoc(results[|before|..], [x.value], Decoded(items[i + 1..], decode).value);
      }
      assert (results + [x.value])[|before|..] == results[|before|..] + [x.value];
      results := results + [x.value];
    }
    assert results[|before|..] + [] == results[|before|..];
    assert before + results[|before|..] == results;
    r := Ok(results);
  }

  /** What a key stands for: the decoded item, if there is one. */
  function ReadKey<K, V, T>(get: K -> Option<V>, decode: V -> Result<T>, k: K): Option<T> {
    match get(k)
    case None => None
    case Some(v) => match decode(v) case Ok(x) => Some(x) case Err => None
  }

  predicate Decodes<K, V, T>(get: K -> Option<V>, decode: V -> Result<T>, k: K) {
    get(k).Some? ==> decode(get(k).value).Ok?
  }

  lemma {:induction false} DecodedIff<K, V, T>(keys: seq<K>, get: K -> Option<V>, decode: V -> Result<T>)
    ensures var r := Decoded(Fetched(keys, get), decode);
      && (r.Ok? <==> forall i :: 0 <= i < |keys| ==> Decodes(get, decode, keys[i]))
      && (r.Ok? ==> r.value == Fetched(keys, k => ReadKey(get, decode, k)))
  {
    if keys != [] {
      DecodedIff(keys[1..], get, decode);
      assert forall i :: 0 < i < |keys| ==> keys[i] == keys[1..][i - 1];
      var more := Fetched(keys[1..], get);
      if get(keys[0]).Some? {
        assert ([get(keys[0]).value] + more)[1..] == more;
      } else {
        assert [] + more == more;
      }
      assert [] + Fetched(keys[1..], k => ReadKey(get, decode, k)) == Fetched(keys[1..], k => ReadKey(get, decode, k));
    }
  }

  /** BatchGet: the keys in chunks of 100, the items of each chunk decoded. It succeeds
      exactly when every chunk is read and every item read can be decoded. */
  method BatchGet<K, V, T>(backends: nat -> Backend<K>, get: K -> Option<V>, decode: V -> Result<T>, keys: seq<K>) returns (r: Result<seq<T>>)
    ensures var chunks := Chunks(keys, MAX_READS);
      && (r.Ok? <==> AllOk(backends, chunks, 0) && forall i :: 0 <= i < |ProcessedBy(backends, chunks, 0)| ==> Decodes(get, decode, ProcessedBy(backends, chunks, 0)[i]))
      && (r.Ok? ==> r.value == Fetched(ProcessedBy(backends, chunks, 0), k => ReadKey(get, decode, k)))
  {
    hide Send, Decodes, ReadKey, Fetched, Decoded;
    var results: seq<T> := [];
    var i, n := 0, 0;
    ghost var done: seq<K>, left := [], Chunks(keys, MAX_READS);
    assert keys[0..] == keys && [] + ProcessedBy(backends, left, 0) == ProcessedBy(backends, left, 0);
    NothingFetched<K, T>(k => ReadKey(get, decode, k));
    while i < |keys|
      invariant 0 <= i && left == if i < |keys| then Chunks(keys[i..], MAX_READS) else []
      invariant AllOk(backends, Chunks(keys, MAX_READS), 0) == AllOk(backends, left, n)
      invariant ProcessedBy(backends, Chunks(keys, MAX_READS), 0) == done + ProcessedBy(backends, left, n)
      invariant forall j :: 0 <= j < |done| ==> Decodes(get, decode, done[j])
      invariant results == Fetched(done, k => ReadKey(get, decode, k))
      decreases |keys| - i
    {
      var end := if i + MAX_READS > |keys| then |keys| else i + MAX_READS;
      var chunk := keys[i..end];
      NextChunk(keys, i, end);
      ghost var rest := left[1..];
      var items := SendBatchGet(backends(n), get, chunk);
      ghost var now := Send(backends(n), chunk, 0).processed;
      if items.Err? {
        return Err;
      }
      DecodedIff(now, get, decode);
      var more := DecodeItems(results, items.value, decode);
      Assoc(done, now, ProcessedBy(backends, rest, n + 1));
      if more.Err? {
        ghost var j :| 0 <= j < |now| && !Decodes(get, decode, now[j]);
        assert (done + now + ProcessedBy(backends, rest, n + 1))[|done| + j] == now[j];
        return Err;
      }
      FetchedConcat(done, now, k => ReadKey(get, decode, k));
      results := more.value;
      done, left := done + now, rest;
      i, n := i + MAX_READS, n + 1;
    }
    assert done + [] == done;
    r := Ok(results);
  }

  lemma NothingFetched<K, V>(get: K -> Option<V>)
    ensures Fetched([], get) == []
  {
  }

  lemma NextChunk<R>(items: seq<R>, i: nat, end: nat)
    requires i < |items| && end == if i + MAX_READS > |items| then |items| else i + MAX_READS
    ensures Chunks(items[i..], MAX_READS) == [items[i..end]] + if end < |items| then Chunks(items[end..], MAX_READS) else []
    ensures Chunks(items[i..], MAX_READS)[0] == items[i..end]
    ensures Chunks(items[i..], MAX_READS)[1..] == if i + MAX_READS < |items| then Chunks(items[i + MAX_READS..], MAX_READS) else []
  {
    var rest := items[i..];
    if |rest| > MAX_READS {
      assert rest[..MAX_READS] == items[i..end] && rest[MAX_READS..] == items[end..];
      assert ([items[i..end]] + Chunks(items[end..], MAX_READS))[1..] == Chunks(items[end..], MAX_READS);
    } else {
      assert rest == items[i..end];
      if end == |items| {
        assert Chunks(rest, MAX_READS) == [rest];
      }
    }
  }

  /** A BatchGet that succeeds returns what each of the keys stands for, once, and then
      the item of every key can be decoded. */
  lemma BatchReadIsComplete<K(!new), V, T>(backends: nat -> Backend<K>, get: K -> Option<V>, decode: V -> Result<T>, keys: seq<K>)
    requires forall i :: Honest(backends(i))
    requires AllOk(backends, Chunks(keys, MAX_READS), 0)
    ensures var processed := ProcessedBy(backends, Chunks(keys, MAX_READS), 0);
      && multiset(Fetched(processed, k => ReadKey(get, decode, k))) == multiset(Fetched(keys, k => ReadKey(get, decode, k)))
      && forall k :: k in processed <==> k in keys
  {
    var processed := ProcessedBy(backends, Chunks(keys, MAX_READS), 0);
    hide *;
    ReadIsConserved(backends, keys);
    FetchedOfSame(processed, keys, k => ReadKey(get, decode, k));
    SameElements(processed, keys);
  }

  lemma ReadIsConserved<K(!new)>(backends: nat -> Backend<K>, keys: seq<K>)
    requires forall i :: Honest(backends(i))
    requires AllOk(backends, Chunks(keys, MAX_READS), 0)
    ensures multiset(ProcessedBy(backends, Chunks(keys, MAX_READS), 0)) == multiset(keys)
  {
    ChunksPartition(keys, MAX_READS);
    hide *;
    ChunksConserve(backends, Chunks(keys, MAX_READS), 0);
  }

  lemma SameElements<K>(a: seq<K>, b: seq<K>)
    requires multiset(a) == multiset(b)
    ensures forall k :: k in a <==> k in b
  {
    assert forall k :: k in a <==> k in multiset(a);
    assert forall k :: k in b <==> k in multiset(b);
  }
}
