/**
 * The ring queue of key data, which drops the oldest key when full
 * (Silicon/Samsung/ExynosPkg/Drivers/KeypadDxe/KeypadTextIn.c, lines 26-73).
 */
module KeyQueues {
  import opened KeySpec

  const MAX_COUNT := 256

  // ---- the queue as a sequence ----

  /** What a full ring keeps: the last 255 keys. */
  function Keep(q: seq<Key>): (r: seq<Key>)
    ensures |r| < MAX_COUNT
  {
    if |q| < MAX_COUNT then q else q[|q| - (MAX_COUNT - 1)..]
  }

  /** PushEfikeyBufTail. */
  function Pushed(q: seq<Key>, key: Key): seq<Key> {
    Keep(q + [key])
  }

  function PushedAll(q: seq<Key>, keys: seq<Key>): seq<Key> {
    if keys == [] then q else Pushed(PushedAll(q, keys[..|keys| - 1]), keys[|keys| - 1])
  }

  lemma KeepKept(q: seq<Key>, key: Key)
    ensures Keep(Keep(q) + [key]) == Keep(q + [key])
  {
    if |q| >= MAX_COUNT {
      var m := |q| - (MAX_COUNT - 1);
      assert q[m..] + [key] == (q + [key])[m..];
    }
  }

  /** Pushing one by one keeps the last 255 of all. */
  lemma {:induction false} PushedAllKeeps(q: seq<Key>, keys: seq<Key>)
    requires |q| < MAX_COUNT
    ensures PushedAll(q, keys) == Keep(q + keys)
  {
    if keys == [] {
      assert q + keys == q;
    } else {
      var before, key := keys[..|keys| - 1], keys[|keys| - 1];
      PushedAllKeeps(q, before);
      assert q + keys == (q + before) + [key];
      KeepKept(q + before, key);
      hide Keep;
    }
  }

  // ---- runs ----

  datatype Op = Push(key: Key) | Pop

  /** The queue, the keys handed out, the keys dropped and the keys pushed in a run. */
  datatype History = History(queue: seq<Key>, popped: seq<Key>, dropped: nat, pushed: seq<Key>)

  function Perform(h: History, op: Op): History {
    match op
    case Push(key) =>
      History(Pushed(h.queue, key), h.popped, h.dropped + (if |h.queue| == MAX_COUNT - 1 then 1 else 0), h.pushed + [key])
    case Pop => if h.queue == [] then h else h.(queue := h.queue[1..], popped := h.popped + [h.queue[0]])
  }

  function PerformAll(ops: seq<Op>): History {
    if ops == [] then History([], [], 0, []) else Perform(PerformAll(ops[..|ops| - 1]), ops[|ops| - 1])
  }

  ghost predicate Fifo(h: History) {
    && |h.queue| < MAX_COUNT && |h.queue| <= |h.pushed|
    && h.queue == h.pushed[|h.pushed| - |h.queue|..]
    && |h.popped| + h.dropped + |h.queue| == |h.pushed|
    && (h.dropped == 0 ==> h.popped + h.queue == h.pushed)
  }

  /**
   * Over every run the queue is a suffix of what was pushed, nothing is invented or lost
   * besides the keys dropped, and without drops keys come out in the order they went in.
   */
  lemma {:induction false} RunIsFifo(ops: seq<Op>)
    ensures Fifo(PerformAll(ops))
  {
    hide Perform, Fifo;
    if ops == [] {
      StartIsFifo();
    } else {
      RunIsFifo(ops[..|ops| - 1]);
      PerformIsFifo(PerformAll(ops[..|ops| - 1]), ops[|ops| - 1]);
    }
  }

  lemma StartIsFifo()
    ensures Fifo(History([], [], 0, []))
  {
  }

  lemma PerformIsFifo(h: History, op: Op)
    requires Fifo(h)
    ensures Fifo(Perform(h, op))
  {
    hide Fifo, Pushed;
    match op
    case Push(key) => PushIsFifo(h, key);
    case Pop =>
      if h.queue != [] {
        PopIsFifo(h);
      }
  }

  lemma PushedCases(q: seq<Key>, key: Key)
    requires |q| < MAX_COUNT
    ensures Pushed(q, key) == (if |q| == MAX_COUNT - 1 then q[1..] else q) + [key]
  {
    if |q| == MAX_COUNT - 1 {
      assert (q + [key])[1..] == q[1..] + [key];
    }
  }

  lemma SuffixPushed(s: seq<Key>, n: nat, key: Key)
    requires n <= |s|
    ensures (s + [key])[|s| - n..] == s[|s| - n..] + [key]
  {
  }

  lemma SuffixPopped(s: seq<Key>, n: nat)
    requires 0 < n <= |s|
    ensures s[|s| - n..][1..] == s[|s| - (n - 1)..]
  {
  }

  lemma PushIsFifo(h: History, key: Key)
    requires Fifo(h)
    ensures Fifo(Perform(h, Push(key)))
  {
    hide Pushed;
    PushedCases(h.queue, key);
    if |h.queue| == MAX_COUNT - 1 {
      SuffixPopped(h.pushed, |h.queue|);
      SuffixPushed(h.pushed, |h.queue| - 1, key);
    } else {
      SuffixPushed(h.pushed, |h.queue|, key);
      assert (h.popped + h.queue) + [key] == h.popped + (h.queue + [key]);
    }
  }

  lemma PopIsFifo(h: History)
    requires Fifo(h) && h.queue != []
    ensures Fifo(Perform(h, Pop))
  {
    SuffixPopped(h.pushed, |h.queue|);
    assert h.popped + h.queue == (h.popped + [h.queue[0]]) + h.queue[1..];
  }

  // ---- the ring ----

  class KeyQueue {
    const buffer: array<Key>
    var head: nat
    var tail: nat

    ghost predicate Valid()
      reads this
    {
      buffer.Length == MAX_COUNT && head < MAX_COUNT && tail < MAX_COUNT
    }

    function Length(): (n: nat)
      requires Valid()
      reads this
      ensures n < MAX_COUNT && (n == 0 <==> head == tail)
    {
      if head <= tail then tail - head else tail + MAX_COUNT - head
    }

    /** Where the ring holds the kth key. */
    function Position(k: nat): (i: nat)
      requires Valid() && k < MAX_COUNT
      reads this
      ensures i < MAX_COUNT
    {
      if head + k < MAX_COUNT then head + k else head + k - MAX_COUNT
    }

    ghost function Contents(): (q: seq<Key>)
      requires Valid()
      reads this, buffer
      ensures |q| == Length()
      ensures forall k :: 0 <= k < |q| ==> q[k] == buffer[Position(k)]
    {
      seq(Length(), k requires 0 <= k < MAX_COUNT reads this, buffer requires Valid() => buffer[Position(k)])
    }

    constructor ()
      ensures Valid() && fresh(buffer) && Contents() == []
    {
      buffer := new Key[MAX_COUNT](i => POWER);
      head, tail := 0, 0;
    }

    method IsEmpty() returns (empty: bool)
      requires Valid()
      ensures empty == (Contents() == [])
    {
      return head == tail;
    }

    method Pop() returns (ok: bool, key: Key)
      requires Valid()
      modifies this`head
      ensures Valid()
      ensures ok == (old(Contents()) != [])
      ensures ok ==> key == old(Contents())[0] && Contents() == old(Contents())[1..]
      ensures !ok ==> Contents() == old(Contents())
    {
      if head == tail {
        return false, POWER;
      }
      ok, key := true, buffer[head];
      ghost var q := Contents();
      head := (head + 1) % MAX_COUNT;
      assert Contents() == q[1..];
    }

    /** The store at the tail, when there is room. */
    method Append(key: Key)
      requires Valid() && Length() < MAX_COUNT - 1
      modifies this`tail, buffer
      ensures Valid() && Contents() == old(Contents()) + [key]
    {
      ghost var q := Contents();
      assert tail == Position(|q|);
      buffer[tail] := key;
      tail := (tail + 1) % MAX_COUNT;
      assert Length() == |q| + 1;
      assert Contents() == q + [key];
    }

    method Push(key: Key)
      requires Valid()
      modifies this, buffer
      ensures Valid() && Contents() == Pushed(old(Contents()), key)
    {
      hide Pushed, Position;
      PushedCases(Contents(), key);
      if (tail + 1) % MAX_COUNT == head {
        var ok, oldest := Pop();
      }
      Append(key);
    }
  }
}
