/**
 * The delete batcher (`Deleter`): an actor that keeps the receipt handles of
 * processed messages in a list and, on each tick, deletes them from the queue
 * in batches of ten, dropping from the list only the handles the queue
 * reports as deleted.
 */
module DeleterActor {

  import opened Wrappers
  import opened Models
  import opened Messages
  import opened Shared
  import SqsClient

  /** The most handles one batch-delete call may carry. */
  const ChunkSize := 10

  /** The flush tick: first after 1 s, then every 2 s. */
  const FirstTickSeconds := 1
  const TickIntervalSeconds := 2

  /**
   * The batch-delete call: for a chunk of handles, the `(Successful, Failed)`
   * answer, or the exception the awaited call threw.
   */
  type Backend = seq<string> -> Result<SqsClient.DeleteBatchResult, Fault>

  /** The messages the handler switches on; `Other` is any message it ignores. */
  datatype Message = Started | Delete(delete: DeleteMessage) | DeleteMessageBatch | Other

  datatype TickSchedule = TickSchedule(firstDelaySeconds: nat, intervalSeconds: nat, tick: Message)

  /** What a message did to the pending list. */
  datatype FlushOutcome =
    /** No flush: the message was not a tick, or the list was empty. */
    | NotFlushed
    /** Every chunk was answered; `confirmed` lists the reported successes, in call order. */
    | Flushed(confirmed: seq<string>)
    /** A batch-delete call threw; the list is left as it was. */
    | Aborted(fault: Fault)

  // ---------------------------------------------------------------------------
  // The list operations, as functions of the list

  /** `List<string>.Remove`: drops the first occurrence of `x`; a missing `x` changes nothing. */
  function RemoveFirst(l: seq<string>, x: string): (r: seq<string>)
    ensures x in l ==> |r| == |l| - 1 && multiset(r) == multiset(l) - multiset{x}
    ensures x !in l ==> r == l
  {
    if l == [] then []
    else if l[0] == x then
      assert l == [l[0]] + l[1..];
      l[1..]
    else
      var rest := RemoveFirst(l[1..], x);
      assert l == [l[0]] + l[1..];
      [l[0]] + rest
  }

  /** The position of the first occurrence of `x` in `l`. */
  function FirstIndex(l: seq<string>, x: string): (i: nat)
    requires x in l
    ensures i < |l| && l[i] == x
    ensures forall j :: 0 <= j < i ==> l[j] != x
  {
    if l[0] == x then 0
    else
      assert x in l[1..];
      var i := FirstIndex(l[1..], x);
      assert forall j :: 1 <= j <= i ==> l[j] == l[1..][j - 1];
      1 + i
  }

  /** The occurrence `RemoveFirst` drops is the first one: what comes before it and what comes after it are kept. */
  lemma {:induction false} RemoveFirstDropsFirstOccurrence(l: seq<string>, x: string)
    requires x in l
    ensures var i := FirstIndex(l, x); RemoveFirst(l, x) == l[..i] + l[i + 1..]
    decreases |l|
  {
    if l[0] == x {
      assert l[..0] + l[1..] == l[1..];
    } else {
      var tail := l[1..];
      assert x in tail;
      RemoveFirstDropsFirstOccurrence(tail, x);
      var j := FirstIndex(tail, x);
      assert FirstIndex(l, x) == j + 1;
      assert RemoveFirst(l, x) == [l[0]] + (tail[..j] + tail[j + 1..]);
      DropAfterHead(l, j);
    }
  }

  /** Dropping position `j` of the tail is dropping position `j + 1` of the list, with the head kept. */
  lemma DropAfterHead(l: seq<string>, j: nat)
    requires j + 1 < |l|
    ensures [l[0]] + (l[1..][..j] + l[1..][j + 1..]) == l[..j + 1] + l[j + 2..]
  {
    assert l[..j + 1] == [l[0]] + l[1..][..j];
    assert l[j + 2..] == l[1..][j + 1..];
  }

  /** `RemoveFromBatch`: one `Remove` per reported id, in the order they were reported. */
  function RemoveAll(l: seq<string>, successful: seq<string>): (r: seq<string>)
    ensures multiset(r) == multiset(l) - multiset(successful)
    decreases |successful|
  {
    if successful == [] then l
    else
      var x := successful[0];
      var r := RemoveAll(RemoveFirst(l, x), successful[1..]);
      assert multiset(successful) == multiset{x} + multiset(successful[1..]) by {
        assert successful == [x] + successful[1..];
      }
      assert multiset(RemoveFirst(l, x)) == multiset(l) - multiset{x} by {
        if x !in l { assert multiset(l)[x] == 0; }
      }
      DifferenceOfSum(multiset(l), multiset{x}, multiset(successful[1..]));
      r
  }

  lemma DifferenceOfSum(a: multiset<string>, b: multiset<string>, c: multiset<string>)
    ensures (a - b) - c == a - (b + c)
  {
    forall x ensures ((a - b) - c)[x] == (a - (b + c))[x] {}
  }

  /** The handles the backend reports as deleted over some calls, in call order; a call that threw reports none. */
  function Confirmed(chunks: seq<seq<string>>, backend: Backend): seq<string> {
    if chunks == [] then []
    else
      var last := backend(chunks[|chunks| - 1]);
      Confirmed(chunks[..|chunks| - 1], backend) + (if last.Success? then last.value.successful else [])
  }

  /** `before` is `after` with elements left out, the rest kept in their relative order. */
  predicate Subsequence(after: seq<string>, before: seq<string>)
    decreases |before|
  {
    if after == [] then true
    else if before == [] then false
    else (after[0] == before[0] && Subsequence(after[1..], before[1..])) || Subsequence(after, before[1..])
  }

  /**
   * What one tick does to the pending list `before`, leaving `after`, given
   * the chunks it sent and its outcome: an empty list makes no call; otherwise
   * the chunks sent are the list's chunks of ten, in order, up to and
   * including the first call that threw; a throw leaves the list unchanged;
   * when every call was answered, the list loses one occurrence of each
   * reported id.
   */
  ghost predicate FlushedAsSpecified(before: seq<string>, after: seq<string>, sent: seq<seq<string>>,
                                     outcome: FlushOutcome, backend: Backend)
  {
    if before == [] then sent == [] && outcome == NotFlushed && after == before
    else
      var chunks := ChunkBy(before, ChunkSize);
      && 0 < |sent| <= |chunks|
      && sent == chunks[..|sent|]
      && (forall j :: 0 <= j < |sent| - 1 ==> backend(sent[j]).Success?)
      && !outcome.NotFlushed?
      && (outcome.Aborted? <==> backend(sent[|sent| - 1]).Failure?)
      && (outcome.Aborted? ==> outcome.fault == backend(sent[|sent| - 1]).error && after == before)
      && (outcome.Flushed? ==> sent == chunks && outcome.confirmed == Confirmed(chunks, backend)
                               && after == RemoveAll(before, outcome.confirmed))
  }

  /**
   * The calls of one flush: the chunks in order, stopping at the first call
   * that throws; returns the chunks sent, the successes reported, and the
   * exception if one was thrown.
   */
  method SendChunks(chunks: seq<seq<string>>, backend: Backend)
    returns (sent: seq<seq<string>>, successful: seq<string>, fault: Option<Fault>)
    ensures |sent| <= |chunks| && sent == chunks[..|sent|]
    ensures forall j :: 0 <= j < |sent| - 1 ==> backend(sent[j]).Success?
    ensures fault.Some? <==> sent != [] && backend(sent[|sent| - 1]).Failure?
    ensures fault.Some? ==> fault.value == backend(sent[|sent| - 1]).error
    ensures fault.None? ==> sent == chunks && successful == Confirmed(chunks, backend)
  {
    successful, sent, fault := [], [], None;
    var i := 0;
    while i < |chunks|
      invariant 0 <= i <= |chunks|
      invariant sent == chunks[..i]
      invariant forall j :: 0 <= j < i ==> backend(chunks[j]).Success?
      invariant successful == Confirmed(chunks[..i], backend)
    {
      var response := backend(chunks[i]);
      sent := sent + [chunks[i]];
      assert chunks[..i + 1][..i] == chunks[..i];
      if response.Failure? {
        return sent, successful, Some(response.error);
      }
      successful := successful + response.value.successful;
      i := i + 1;
    }
    assert chunks[..i] == chunks;
  }

  // ---------------------------------------------------------------------------
  // The actor

  class Deleter {

    /** The pending receipt handles, oldest first. */
    var receiptHandles: seq<string>

    constructor ()
      ensures receiptHandles == []
    {
      receiptHandles := [];
    }

    /** `AddToBatch`: the handle goes at the end; earlier entries are unchanged. */
    method AddToBatch(delete: DeleteMessage)
      modifies this
      ensures receiptHandles == old(receiptHandles) + [delete.receiptHandle]
    {
      receiptHandles := receiptHandles + [delete.receiptHandle];
    }

    /** `RemoveFromBatch`: `Remove` each reported id in turn. */
    method RemoveFromBatch(successful: seq<string>)
      modifies this
      ensures receiptHandles == RemoveAll(old(receiptHandles), successful)
    {
      var i := 0;
      while i < |successful|
        invariant 0 <= i <= |successful|
        invariant RemoveAll(receiptHandles, successful[i..]) == RemoveAll(old(receiptHandles), successful)
      {
        assert successful[i..][0] == successful[i] && successful[i..][1..] == successful[i + 1..];
        receiptHandles := RemoveFirst(receiptHandles, successful[i]);
        i := i + 1;
      }
      assert successful[i..] == [];
    }

    /**
     * The `DeleteMessageBatch` tick: nothing if the list is empty; otherwise
     * one backend call per chunk of ten, in order, gathering the reported
     * successes, and only after the last chunk the removal of those ids.
     */
    method FlushBatch(backend: Backend) returns (sent: seq<seq<string>>, outcome: FlushOutcome)
      modifies this
      ensures FlushedAsSpecified(old(receiptHandles), receiptHandles, sent, outcome, backend)
    {
      if |receiptHandles| == 0 {
        return [], NotFlushed;
      }
      ghost var before := receiptHandles;
      var chunks := ChunkBy(receiptHandles, ChunkSize);
      ChunkByEmpty(receiptHandles, ChunkSize);
      var successful, fault;
      sent, successful, fault := SendChunks(chunks, backend);
      if fault.Some? {
        outcome := Aborted(fault.value);
        assert FlushedAsSpecified(before, receiptHandles, sent, outcome, backend);
        return;
      }
      RemoveFromBatch(successful);
      outcome := Flushed(successful);
      assert FlushedAsSpecified(before, receiptHandles, sent, outcome, backend);
    }

    /** The actor's handler: `Started` schedules the tick, `DeleteMessage` adds to the batch, the tick flushes. */
    method Receive(msg: Message, backend: Backend) returns (schedule: Option<TickSchedule>, sent: seq<seq<string>>, outcome: FlushOutcome)
      modifies this
      ensures msg.Started? ==> schedule == Some(TickSchedule(FirstTickSeconds, TickIntervalSeconds, DeleteMessageBatch))
                               && sent == [] && outcome == NotFlushed && receiptHandles == old(receiptHandles)
      ensures msg.Delete? ==> schedule == None && sent == [] && outcome == NotFlushed
                              && receiptHandles == old(receiptHandles) + [msg.delete.receiptHandle]
      ensures msg.DeleteMessageBatch? ==> schedule == None
                                          && FlushedAsSpecified(old(receiptHandles), receiptHandles, sent, outcome, backend)
      ensures msg.Other? ==> schedule == None && sent == [] && outcome == NotFlushed && receiptHandles == old(receiptHandles)
    {
      match msg
      case Started =>
        schedule, sent, outcome := Some(TickSchedule(FirstTickSeconds, TickIntervalSeconds, DeleteMessageBatch)), [], NotFlushed;
      case Delete(delete) =>
        AddToBatch(delete);
        schedule, sent, outcome := None, [], NotFlushed;
      case DeleteMessageBatch =>
        schedule := None;
        sent, outcome := FlushBatch(backend);
      case Other =>
        schedule, sent, outcome := None, [], NotFlushed;
    }
  }

  // ---------------------------------------------------------------------------
  // Properties of the removal

  lemma {:induction false} SubsequenceReflexive(s: seq<string>)
    ensures Subsequence(s, s)
    decreases |s|
  {
    if s != [] {
      SubsequenceReflexive(s[1..]);
    }
  }

  lemma {:induction false} SubsequenceTransitive(a: seq<string>, b: seq<string>, c: seq<string>)
    requires Subsequence(a, b) && Subsequence(b, c)
    ensures Subsequence(a, c)
    decreases |c|
  {
    if a != [] {
      if Subsequence(b, c[1..]) {
        SubsequenceTransitive(a, b, c[1..]);
      } else if a[0] == b[0] && Subsequence(a[1..], b[1..]) {
        SubsequenceTransitive(a[1..], b[1..], c[1..]);
      } else {
        SubsequenceTransitive(a, b[1..], c[1..]);
      }
    }
  }

  lemma {:induction false} RemoveFirstKeepsOrder(l: seq<string>, x: string)
    ensures Subsequence(RemoveFirst(l, x), l)
    decreases |l|
  {
    if l != [] {
      if l[0] == x {
        SubsequenceReflexive(l[1..]);
        if l[1..] != [] {
          assert Subsequence(l[1..], l[1..]);
        }
      } else {
        RemoveFirstKeepsOrder(l[1..], x);
        assert ([l[0]] + RemoveFirst(l[1..], x))[1..] == RemoveFirst(l[1..], x);
      }
    }
  }

  /** The handles that stay keep their original relative order. */
  lemma {:induction false} RemoveAllKeepsOrder(l: seq<string>, successful: seq<string>)
    ensures Subsequence(RemoveAll(l, successful), l)
    decreases |successful|
  {
    if successful == [] {
      SubsequenceReflexive(l);
    } else {
      var l' := RemoveFirst(l, successful[0]);
      RemoveFirstKeepsOrder(l, successful[0]);
      RemoveAllKeepsOrder(l', successful[1..]);
      SubsequenceTransitive(RemoveAll(l', successful[1..]), l', l);
    }
  }

  /**
   * Exactly the handles both pending and reported leave the list, one
   * occurrence per report, so the list shrinks by the number of reported ids
   * that were present; nothing leaves that was not reported.
   */
  lemma RemoveAllRemovesExactlyConfirmed(l: seq<string>, successful: seq<string>)
    ensures var r := RemoveAll(l, successful);
            && multiset(l) - multiset(r) == multiset(l) * multiset(successful)
            && multiset(l) - multiset(r) <= multiset(successful)
            && |r| == |l| - |multiset(l) * multiset(successful)|
  {
    MultisetSplit(multiset(l), multiset(successful));
  }

  /** Taking `s` away from `l` removes the common part `l * s`. */
  lemma MultisetSplit(l: multiset<string>, s: multiset<string>)
    ensures l - (l - s) == l * s
    ensures l == (l - s) + l * s
    ensures |l| == |l - s| + |l * s|
  {
    assert forall x :: (l - (l - s))[x] == (l * s)[x];
    assert forall x :: l[x] == ((l - s) + l * s)[x];
  }

  /** Reported ids that are not pending change nothing. */
  lemma {:induction false} UnknownIdsAreNoOps(l: seq<string>, successful: seq<string>)
    requires forall x :: x in successful ==> x !in l
    ensures RemoveAll(l, successful) == l
    decreases |successful|
  {
    if successful != [] {
      assert successful[0] in successful;
      assert forall x :: x in successful[1..] ==> x in successful;
      UnknownIdsAreNoOps(l, successful[1..]);
    }
  }

  /** The pending handles that are not reported. */
  function Unconfirmed(l: seq<string>, successful: seq<string>): (r: seq<string>)
    ensures forall x :: x in r <==> x in l && x !in successful
  {
    if l == [] then []
    else if l[0] in successful then Unconfirmed(l[1..], successful)
    else [l[0]] + Unconfirmed(l[1..], successful)
  }

  /** No handle occurs twice. */
  predicate Distinct(l: seq<string>)
    decreases |l|
  {
    l == [] || (l[0] !in l[1..] && Distinct(l[1..]))
  }

  /** `Remove` only ever drops elements. */
  lemma {:induction false} RemoveFirstKeepsOnlyMembers(l: seq<string>, x: string)
    ensures forall y :: y in RemoveFirst(l, x) ==> y in l
    decreases |l|
  {
    if l != [] && l[0] != x {
      RemoveFirstKeepsOnlyMembers(l[1..], x);
    }
  }

  lemma {:induction false} RemoveFirstUnconfirmed(l: seq<string>, x: string, rest: seq<string>)
    requires Distinct(l)
    ensures Distinct(RemoveFirst(l, x))
    ensures Unconfirmed(RemoveFirst(l, x), rest) == Unconfirmed(l, [x] + rest)
    decreases |l|
  {
    if l != [] {
      if l[0] == x {
        UnconfirmedIgnores(l[1..], x, rest);
      } else {
        RemoveFirstUnconfirmed(l[1..], x, rest);
        RemoveFirstKeepsOnlyMembers(l[1..], x);
        var r := [l[0]] + RemoveFirst(l[1..], x);
        assert r[0] == l[0] && r[1..] == RemoveFirst(l[1..], x);
      }
    }
  }

  lemma {:induction false} UnconfirmedIgnores(l: seq<string>, x: string, rest: seq<string>)
    requires x !in l
    ensures Unconfirmed(l, rest) == Unconfirmed(l, [x] + rest)
    decreases |l|
  {
    if l != [] {
      UnconfirmedIgnores(l[1..], x, rest);
    }
  }

  /**
   * When the pending handles are distinct (each message is acknowledged
   * once), a flush leaves exactly the unreported handles, in their order.
   */
  lemma {:induction false} DistinctHandlesKeepExactlyUnconfirmed(l: seq<string>, successful: seq<string>)
    requires Distinct(l)
    ensures RemoveAll(l, successful) == Unconfirmed(l, successful)
    decreases |successful|
  {
    if successful == [] {
      UnconfirmedNone(l);
    } else {
      var x, rest := successful[0], successful[1..];
      assert successful == [x] + rest;
      RemoveFirstUnconfirmed(l, x, rest);
      DistinctHandlesKeepExactlyUnconfirmed(RemoveFirst(l, x), rest);
    }
  }

  lemma {:induction false} UnconfirmedNone(l: seq<string>)
    ensures Unconfirmed(l, []) == l
    decreases |l|
  {
    if l != [] {
      UnconfirmedNone(l[1..]);
      assert l == [l[0]] + l[1..];
    }
  }

  /** A flush that is confirmed for every pending handle empties the list. */
  lemma ConfirmingEverythingEmpties(l: seq<string>)
    ensures RemoveAll(l, l) == []
  {
    var r := RemoveAll(l, l);
    assert multiset(r) == multiset{};
  }

  // ---------------------------------------------------------------------------
  // Properties of a flush

  /**
   * At-least-once: a flush never drops a handle that its own calls did not
   * report deleted, never grows the list, and keeps the remaining handles in
   * their order.
   */
  lemma FlushRemovesOnlyConfirmed(before: seq<string>, after: seq<string>, sent: seq<seq<string>>,
                                  outcome: FlushOutcome, backend: Backend)
    requires FlushedAsSpecified(before, after, sent, outcome, backend)
    ensures multiset(before) - multiset(after) <= multiset(Confirmed(sent, backend))
    ensures |after| <= |before|
    ensures Subsequence(after, before)
    ensures !outcome.Flushed? ==> after == before
  {
    if outcome.Flushed? {
      RemoveAllRemovesExactlyConfirmed(before, outcome.confirmed);
      RemoveAllKeepsOrder(before, outcome.confirmed);
    } else {
      SubsequenceReflexive(before);
    }
  }

  /** Every chunk a flush sends holds between one and ten handles, and together, in order, they are a prefix of the list: all of it on a completed flush. */
  lemma FlushSendsBoundedChunks(before: seq<string>, after: seq<string>, sent: seq<seq<string>>,
                                outcome: FlushOutcome, backend: Backend)
    requires FlushedAsSpecified(before, after, sent, outcome, backend)
    ensures forall j :: 0 <= j < |sent| ==> 0 < |sent[j]| <= ChunkSize
    ensures exists rest :: Flatten(sent) + rest == before
    ensures outcome.Flushed? ==> Flatten(sent) == before
  {
    if before != [] {
      var chunks := ChunkBy(before, ChunkSize);
      assert chunks == sent + chunks[|sent|..];
      FlattenAppend(sent, chunks[|sent|..]);
      assert Flatten(sent) + Flatten(chunks[|sent|..]) == before;
    } else {
      assert Flatten(sent) + [] == before;
    }
  }
}
