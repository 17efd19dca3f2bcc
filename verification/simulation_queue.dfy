/**
  The simulation queue of the packet configuration page: a guarded append
  of formatted entries, deletion by position, and clearing.
 */
module SimulationQueue {
  const BytesSuffix: string := " bytes"
  const MsSuffix: string := " ms"

  /** A queued entry as the page displays it. */
  datatype QueueItem = QueueItem(packetType: string, packetSize: string, transmissionInterval: string)

  /** The page's state: the three inputs and the queue. */
  datatype QueueState = QueueState(
    packetType: string,
    packetSize: string,
    transmissionInterval: string,
    queue: seq<QueueItem>)

  /** The page starts with "Video Traffic" selected, empty inputs and an empty queue. */
  const Initial: QueueState := QueueState("Video Traffic", "", "", [])

  /** The entry the inputs describe, with the units appended. */
  function Entry(s: QueueState): QueueItem {
    QueueItem(s.packetType, s.packetSize + BytesSuffix, s.transmissionInterval + MsSuffix)
  }

  /** Every input holds some text. */
  predicate Filled(s: QueueState) {
    s.packetType != "" && s.packetSize != "" && s.transmissionInterval != ""
  }

  /**
    "Add to Simulation Queue": with all three inputs filled, the entry is
    appended and the size and interval inputs are emptied; otherwise nothing
    changes.
   */
  function AddToQueue(s: QueueState): (r: QueueState)
    ensures !Filled(s) ==> r == s
    ensures Filled(s) ==>
      && |r.queue| == |s.queue| + 1
      && r.queue[..|s.queue|] == s.queue
      && r.queue[|s.queue|].packetType == s.packetType
      && r.queue[|s.queue|].packetSize == s.packetSize + " bytes"
      && r.queue[|s.queue|].transmissionInterval == s.transmissionInterval + " ms"
      && r.packetType == s.packetType && r.packetSize == "" && r.transmissionInterval == ""
  {
    if Filled(s) then
      QueueState(s.packetType, "", "", s.queue + [Entry(s)])
    else s
  }

  /** `queue.filter((_, i) => i !== index)`, walking the queue from position `from`. */
  function Without(q: seq<QueueItem>, index: int, from: int): (r: seq<QueueItem>)
    decreases |q|
  {
    if |q| == 0 then []
    else (if from == index then [] else [q[0]]) + Without(q[1..], index, from + 1)
  }

  /** "Delete": the queue without the item at `index`. */
  function DeleteItem(s: QueueState, index: int): (r: QueueState)
    ensures r == s.(queue := r.queue)
  {
    s.(queue := Without(s.queue, index, 0))
  }

  /** "Clear queue" empties the queue and keeps the inputs. */
  function ClearQueue(s: QueueState): (r: QueueState)
    ensures r.queue == [] && r == s.(queue := [])
  {
    s.(queue := [])
  }

  /** After a clear, adding the filled inputs leaves a queue holding just that entry. */
  lemma ClearThenAdd(s: QueueState)
    requires Filled(s)
    ensures AddToQueue(ClearQueue(s)).queue == [Entry(s)]
    ensures ClearQueue(AddToQueue(s)).queue == []
  {
  }

  /**
    Filtering from position `from` removes exactly the item at `index - from`
    when that is a position of `q`, and nothing otherwise.
   */
  lemma {:induction false} WithoutRemovesOne(q: seq<QueueItem>, index: int, from: int)
    ensures 0 <= index - from < |q| ==> Without(q, index, from) == q[..index - from] + q[index - from + 1..]
    ensures !(0 <= index - from < |q|) ==> Without(q, index, from) == q
    decreases |q|
  {
    if |q| > 0 {
      WithoutRemovesOne(q[1..], index, from + 1);
      if from == index {
        assert q[1..] == q[..0] + q[1..];
      } else if 0 <= index - from < |q| {
        assert q[..index - from] == [q[0]] + q[1..][..index - from - 1];
        assert q[index - from + 1..] == q[1..][index - from..];
      } else {
        assert q == [q[0]] + q[1..];
      }
    }
  }

  /**
    Deleting position `index` removes exactly that item and keeps the rest in
    order; an index outside the queue leaves it as it is.
   */
  lemma DeleteItemRemoves(s: QueueState, index: int)
    ensures 0 <= index < |s.queue| ==>
      |DeleteItem(s, index).queue| == |s.queue| - 1
      && (forall i | 0 <= i < index :: DeleteItem(s, index).queue[i] == s.queue[i])
      && (forall i | index <= i < |s.queue| - 1 :: DeleteItem(s, index).queue[i] == s.queue[i + 1])
    ensures !(0 <= index < |s.queue|) ==> DeleteItem(s, index) == s
  {
    WithoutRemovesOne(s.queue, index, 0);
  }

  /** Deleting the entry just added gives back the queue it was added to. */
  lemma AddThenDelete(s: QueueState)
    requires Filled(s)
    ensures DeleteItem(AddToQueue(s), |s.queue|).queue == s.queue
  {
    var q := AddToQueue(s).queue;
    WithoutRemovesOne(q, |s.queue|, 0);
    assert q[..|s.queue|] == s.queue;
  }

  /**
    An add right after another does nothing, since the first emptied the size
    and interval inputs.
   */
  lemma AddTwice(s: QueueState)
    ensures AddToQueue(AddToQueue(s)).queue == AddToQueue(s).queue
  {
  }

  /** Every queued entry carries the units on its size and interval. */
  predicate WellFormed(q: seq<QueueItem>) {
    forall i | 0 <= i < |q| ::
      && q[i].packetType != ""
      && EndsWith(q[i].packetSize, BytesSuffix) && |q[i].packetSize| > |BytesSuffix|
      && EndsWith(q[i].transmissionInterval, MsSuffix) && |q[i].transmissionInterval| > |MsSuffix|
  }

  predicate EndsWith(s: string, suffix: string) {
    |suffix| <= |s| && s[|s| - |suffix|..] == suffix
  }

  /** The entry the inputs describe carries both units. */
  lemma EntryWellFormed(s: QueueState)
    requires Filled(s)
    ensures WellFormed([Entry(s)])
  {
    var e := Entry(s);
    assert e.packetSize[|e.packetSize| - |BytesSuffix|..] == BytesSuffix;
    assert e.transmissionInterval[|e.transmissionInterval| - |MsSuffix|..] == MsSuffix;
  }

  /** Two well-formed queues joined stay well formed. */
  lemma WellFormedConcat(p: seq<QueueItem>, q: seq<QueueItem>)
    requires WellFormed(p) && WellFormed(q)
    ensures WellFormed(p + q)
  {
    forall i | 0 <= i < |p + q| ensures (p + q)[i] == if i < |p| then p[i] else q[i - |p|] {
    }
  }

  /** Adding, deleting and clearing keep every entry well formed. */
  lemma OperationsKeepWellFormed(s: QueueState, index: int)
    requires WellFormed(s.queue)
    ensures WellFormed(AddToQueue(s).queue)
    ensures WellFormed(DeleteItem(s, index).queue)
    ensures WellFormed(ClearQueue(s).queue)
  {
    DeleteItemRemoves(s, index);
    if Filled(s) {
      EntryWellFormed(s);
      WellFormedConcat(s.queue, [Entry(s)]);
    }
    if 0 <= index < |s.queue| {
      var q := DeleteItem(s, index).queue;
      forall i | 0 <= i < |q| ensures q[i] == s.queue[if i < index then i else i + 1] {
      }
    }
  }
}
