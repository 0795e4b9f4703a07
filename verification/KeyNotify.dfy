/**
 * Key notifications (section 12.2 of the UEFI Specification, Simple Text Input Ex): the
 * registry, the fan-out of a key to the two queues, and the two draining loops
 * (Silicon/Samsung/ExynosPkg/Drivers/KeypadDxe/KeypadTextIn.c and Keypad.c).
 */
module KeyNotify {
  import opened KeySpec
  import opened KeyQueues
  import opened Wrappers

  // ---- the registry ----

  /** An entry of the notify list; the handle stands for its address, fn for its callback. */
  datatype Registration = Registration(handle: nat, key: Key, fn: nat)

  /** IsKeyRegistered: a zero shift or toggle state registers for any. */
  predicate Matches(registered: Key, input: Key) {
    && registered.scanCode == input.scanCode && registered.unicodeChar == input.unicodeChar
    && (registered.shiftState == 0 || registered.shiftState == input.shiftState)
    && (registered.toggleState == 0 || registered.toggleState == input.toggleState)
  }

  lemma MatchesTransitive(a: Key, b: Key, c: Key)
    requires Matches(a, b) && Matches(b, c)
    ensures Matches(a, c)
  {
  }

  predicate SameRegistration(r: Registration, key: Key, fn: nat) {
    Matches(r.key, key) && r.fn == fn
  }

  /** The first entry from i on that already stands for the registration; the list's length if there is none. */
  function Existing(list: seq<Registration>, i: nat, key: Key, fn: nat): (k: nat)
    requires i <= |list|
    ensures i <= k <= |list|
    ensures k < |list| ==> SameRegistration(list[k], key, fn)
    ensures forall j :: i <= j < k ==> !SameRegistration(list[j], key, fn)
    decreases |list| - i
  {
    if i == |list| then i else if SameRegistration(list[i], key, fn) then i else Existing(list, i + 1, key, fn)
  }

  /**
   * KeypadRegisterKeyNotify: the new list and the handle, if there is one; pool is the
   * address of a new entry, or none if the allocation fails.
   */
  function Registered(list: seq<Registration>, pool: Option<nat>, key: Key, fn: nat): (seq<Registration>, Option<nat>) {
    var k := Existing(list, 0, key, fn);
    if k < |list| then (list, Some(list[k].handle))
    else match pool
      case None => (list, None)
      case Some(address) => (list + [Registration(address, key, fn)], Some(address))
  }

  /** The first entry from i on with the handle. */
  function Holder(list: seq<Registration>, i: nat, handle: nat): (k: nat)
    requires i <= |list|
    ensures i <= k <= |list|
    ensures k < |list| ==> list[k].handle == handle
    ensures forall j :: i <= j < k ==> list[j].handle != handle
    decreases |list| - i
  {
    if i == |list| then i else if list[i].handle == handle then i else Holder(list, i + 1, handle)
  }

  /** KeypadUnregisterKeyNotify. */
  function Unregistered(list: seq<Registration>, handle: nat): seq<Registration> {
    var k := Holder(list, 0, handle);
    if k < |list| then list[..k] + list[k + 1..] else list
  }

  /** No later entry is matched by an earlier one with the same callback, and handles are distinct. */
  ghost predicate ListOk(list: seq<Registration>) {
    && (forall i, j :: 0 <= i < j < |list| ==> !SameRegistration(list[i], list[j].key, list[j].fn))
    && (forall i, j :: 0 <= i < j < |list| ==> list[i].handle != list[j].handle)
  }

  /** No entry lies at the address that the allocator returns; it may have been an entry's before. */
  ghost predicate Unused(list: seq<Registration>, pool: Option<nat>) {
    pool.Some? ==> forall r :: r in list ==> r.handle != pool.value
  }

  datatype Change = Register(key: Key, fn: nat, pool: Option<nat>) | Unregister(handle: nat)

  function Changed(list: seq<Registration>, c: Change): seq<Registration> {
    match c
    case Register(key, fn, pool) => Registered(list, pool, key, fn).0
    case Unregister(handle) => Unregistered(list, handle)
  }

  /** The change makes a new entry. */
  predicate Allocates(list: seq<Registration>, c: Change) {
    c.Register? && c.pool.Some? && Existing(list, 0, c.key, c.fn) == |list|
  }

  ghost predicate CanChange(list: seq<Registration>, c: Change) {
    Allocates(list, c) ==> Unused(list, c.pool)
  }

  lemma ChangeKeepsList(list: seq<Registration>, c: Change)
    requires ListOk(list) && CanChange(list, c)
    ensures ListOk(Changed(list, c))
  {
    hide Matches;
  }

  /** The list after a run of registrations and removals. */
  function ListAfter(changes: seq<Change>): seq<Registration> {
    if changes == [] then []
    else Changed(ListAfter(changes[..|changes| - 1]), changes[|changes| - 1])
  }

  /** Every new entry of the run gets an address that no entry has at that time. */
  ghost predicate Possible(changes: seq<Change>) {
    changes == []
    || (Possible(changes[..|changes| - 1]) && CanChange(ListAfter(changes[..|changes| - 1]), changes[|changes| - 1]))
  }

  lemma {:induction false} ListStaysOk(changes: seq<Change>)
    requires Possible(changes)
    ensures ListOk(ListAfter(changes))
  {
    hide Changed, CanChange;
    if changes != [] {
      ListStaysOk(changes[..|changes| - 1]);
      ChangeKeepsList(ListAfter(changes[..|changes| - 1]), changes[|changes| - 1]);
    }
  }

  /** The registration for which the run last made an entry at the handle, unless it was removed since. */
  function Meaning(changes: seq<Change>, handle: nat): Option<Registration> {
    if changes == [] then None
    else
      var before, c := changes[..|changes| - 1], changes[|changes| - 1];
      if Allocates(ListAfter(before), c) && c.pool.value == handle then Some(Registration(handle, c.key, c.fn))
      else if c == Unregister(handle) then None
      else Meaning(before, handle)
  }

  /** After every run, the entry with a handle is the one the handle means, and without a meaning there is none. */
  lemma {:induction false} HandleNames(changes: seq<Change>, handle: nat)
    requires Possible(changes)
    ensures forall r :: r in ListAfter(changes) && r.handle == handle <==> Meaning(changes, handle) == Some(r)
  {
    hide Matches;
    if changes != [] {
      var before, c := changes[..|changes| - 1], changes[|changes| - 1];
      HandleNames(before, handle);
      ListStaysOk(before);
      ChangeNames(ListAfter(before), c, handle);
    }
  }

  /** What one change does to the entries with a handle. */
  lemma ChangeNames(list: seq<Registration>, c: Change, handle: nat)
    requires ListOk(list) && CanChange(list, c)
    ensures forall r :: r in Changed(list, c) && r.handle == handle <==>
      if Allocates(list, c) && c.pool.value == handle then r == Registration(handle, c.key, c.fn)
      else if c == Unregister(handle) then false
      else r in list && r.handle == handle
  {
    hide Matches;
    if c.Unregister? {
      UnregisterRemoves(list, c.handle);
    }
  }

  /**
   * A handle used once more after its removal: nothing happens while no new entry lies there,
   * and once one does, it is that other client's registration that is removed.
   */
  lemma StaleHandle(changes: seq<Change>, handle: nat)
    requires Possible(changes)
    ensures match Meaning(changes, handle)
      case None => Unregistered(ListAfter(changes), handle) == ListAfter(changes)
      case Some(other) => (
        && other in ListAfter(changes)
        && forall r :: r in Unregistered(ListAfter(changes), handle) <==> r in ListAfter(changes) && r != other)
  {
    hide Matches, Meaning, ListOk;
    HandleNames(changes, handle);
    ListStaysOk(changes);
    UnregisterRemoves(ListAfter(changes), handle);
    assert forall r :: r in ListAfter(changes) && r.handle == handle <==> Meaning(changes, handle) == Some(r);
  }

  lemma OneMore(before: seq<Change>, c: Change)
    requires Possible(before) && CanChange(ListAfter(before), c)
    ensures Possible(before + [c]) && ListAfter(before + [c]) == Changed(ListAfter(before), c)
  {
    hide CanChange, Changed;
    assert (before + [c])[..|before|] == before;
  }

  /** Where a freed address is used again, removing by the first handle once more undoes the second client's registration. */
  lemma ReusedHandle(before: seq<Change>, handle: nat, key: Key, fn: nat)
    requires Possible(before)
    requires var l := Unregistered(ListAfter(before), handle); Existing(l, 0, key, fn) == |l|
    ensures var run := before + [Unregister(handle)] + [Register(key, fn, Some(handle))];
      && Possible(run) && Registration(handle, key, fn) in ListAfter(run)
      && ListAfter(run + [Unregister(handle)]) == ListAfter(before + [Unregister(handle)])
  {
    hide Matches, ListOk, ListAfter, Possible, Meaning;
    var freed := before + [Unregister(handle)];
    ListStaysOk(before);
    UnregisterRemoves(ListAfter(before), handle);
    OneMore(before, Unregister(handle));
    var l, r := ListAfter(freed), Registration(handle, key, fn);
    OneMore(freed, Register(key, fn, Some(handle)));
    OneMore(freed + [Register(key, fn, Some(handle))], Unregister(handle));
    assert (l + [r])[|l|] == r;
    assert Holder(l + [r], 0, handle) == |l| by {
      assert forall j :: 0 <= j < |l| ==> (l + [r])[j] == l[j] && l[j].handle != handle;
    }
    assert (l + [r])[..|l|] + (l + [r])[|l| + 1..] == l;
  }

  /** Unless there is neither an entry that serves it nor memory for one, every key that a registration asks for reaches its callback. */
  lemma RegisterServes(list: seq<Registration>, pool: Option<nat>, key: Key, fn: nat, input: Key)
    requires Matches(key, input)
    ensures var (l, handle) := Registered(list, pool, key, fn);
      && (handle == None <==> pool == None && forall r :: r in list ==> !SameRegistration(r, key, fn))
      && (handle == None || exists k :: 0 <= k < |l| && l[k].handle == handle.value && l[k].fn == fn && Matches(l[k].key, input))
  {
    hide Matches;
    var (l, handle) := Registered(list, pool, key, fn);
    var k := Existing(list, 0, key, fn);
    if handle.Some? {
      assert l[k].handle == handle.value && l[k].fn == fn;
    }
    if k < |list| {
      MatchesTransitive(list[k].key, key, input);
    }
  }

  /** Removing by handle removes the one entry that has it and keeps the others in order. */
  lemma UnregisterRemoves(list: seq<Registration>, handle: nat)
    requires ListOk(list)
    ensures forall r :: r in Unregistered(list, handle) <==> r in list && r.handle != handle
    ensures |Unregistered(list, handle)| == |list| - if Holder(list, 0, handle) < |list| then 1 else 0
  {
    hide Matches;
    var k, l := Holder(list, 0, handle), Unregistered(list, handle);
    if k < |list| {
      forall r
        ensures r in l <==> r in list && r.handle != handle
      {
        if r in list && r.handle != handle {
          var i :| 0 <= i < |list| && list[i] == r;
          assert l[if i < k then i else i - 1] == r;
        }
      }
    }
  }

  // ---- delivering a key ----

  predicate Partial(key: Key) {
    key.scanCode == 0 && key.unicodeChar == 0
  }

  /** The callbacks that a key reaches, in list order. */
  function Reached(list: seq<Registration>, key: Key): seq<nat> {
    if list == [] then []
    else Reached(list[..|list| - 1], key) + (if Matches(list[|list| - 1].key, key) then [list[|list| - 1].fn] else [])
  }

  function Copies(key: Key, n: nat): (r: seq<Key>)
    ensures |r| == n && forall k :: 0 <= k < n ==> r[k] == key
  {
    seq(n, _ => key)
  }

  /** The two queues after KeypadReturnApiPushEfikeyBufTail. */
  function FannedOut(list: seq<Registration>, partialKeys: bool, q: seq<Key>, notify: seq<Key>, key: Key): (seq<Key>, seq<Key>) {
    if Partial(key) && !partialKeys then (q, notify)
    else (Pushed(q, key), PushedAll(notify, Copies(key, |Reached(list, key)|)))
  }

  /** A call of a callback with a key. */
  datatype Call = Call(fn: nat, key: Key)

  function CallsFor(fns: seq<nat>, key: Key): (r: seq<Call>)
    ensures |r| == |fns| && forall k :: 0 <= k < |fns| ==> r[k] == Call(fns[k], key)
  {
    seq(|fns|, k requires 0 <= k < |fns| => Call(fns[k], key))
  }

  /** The calls that KeyNotifyProcessHandler makes for the keys queued. */
  function Processed(list: seq<Registration>, notify: seq<Key>): seq<Call> {
    if notify == [] then [] else CallsFor(Reached(list, notify[0]), notify[0]) + Processed(list, notify[1..])
  }

  function Repeated(calls: seq<Call>, m: nat): seq<Call> {
    if m == 0 then [] else calls + Repeated(calls, m - 1)
  }

  lemma {:induction false} RepeatedLength(calls: seq<Call>, m: nat)
    ensures |Repeated(calls, m)| == m * |calls|
  {
    if m > 0 {
      RepeatedLength(calls, m - 1);
      assert m * |calls| == |calls| + (m - 1) * |calls|;
    }
  }

  /** m copies of a key: the calls for the key, m times over. */
  lemma {:induction false} ProcessedCopies(list: seq<Registration>, key: Key, m: nat)
    ensures Processed(list, Copies(key, m)) == Repeated(CallsFor(Reached(list, key), key), m)
  {
    hide Reached, CallsFor;
    if m > 0 {
      ProcessedCopies(list, key, m - 1);
      assert Copies(key, m)[1..] == Copies(key, m - 1);
    }
  }

  function Least(m: nat, n: nat): nat {
    if m < n then m else n
  }

  /** The last n keys of a queue. */
  function Newest(q: seq<Key>, n: nat): seq<Key> {
    q[|q| - Least(|q|, n)..]
  }

  lemma {:induction false} ProcessedSum(list: seq<Registration>, a: seq<Key>, b: seq<Key>)
    ensures Processed(list, a + b) == Processed(list, a) + Processed(list, b)
  {
    hide Reached, CallsFor;
    if a == [] {
      assert a + b == b;
    } else {
      assert (a + b)[1..] == a[1..] + b;
      ProcessedSum(list, a[1..], b);
    }
  }

  lemma KeepCopies(notify: seq<Key>, key: Key, n: nat)
    requires |notify| < MAX_COUNT
    ensures var m := Least(n, MAX_COUNT - 1);
      Keep(notify + Copies(key, n)) == Newest(notify, MAX_COUNT - 1 - m) + Copies(key, m)
  {
  }

  /** The copies of a full key in the notify queue, and what their processing adds. */
  lemma CopiesProcessed(list: seq<Registration>, partialKeys: bool, q: seq<Key>, notify: seq<Key>, key: Key)
    requires (!Partial(key) || partialKeys) && |notify| < MAX_COUNT
    ensures var n := |Reached(list, key)|;
      var m := Least(n, MAX_COUNT - 1);
      var (q', notify') := FannedOut(list, partialKeys, q, notify, key);
      && q' == Pushed(q, key)
      && notify' == Newest(notify, MAX_COUNT - 1 - m) + Copies(key, m)
      && Processed(list, notify') ==
           Processed(list, Newest(notify, MAX_COUNT - 1 - m)) + Repeated(CallsFor(Reached(list, key), key), m)
      && (|notify| + n < MAX_COUNT ==> m == n && Newest(notify, MAX_COUNT - 1 - m) == notify)
  {
    hide Reached, Processed, Repeated, Keep, Matches, Partial, Pushed, PushedAll, CallsFor;
    var n := |Reached(list, key)|;
    var m := Least(n, MAX_COUNT - 1);
    PushedAllKeeps(notify, Copies(key, n));
    KeepCopies(notify, key, n);
    ProcessedSum(list, Newest(notify, MAX_COUNT - 1 - m), Copies(key, m));
    ProcessedCopies(list, key, m);
  }

  /**
   * A full key that reaches n callbacks, pushed on any notify queue: one entry in the read
   * queue, and when the queue is processed, after the calls for the keys before it, all n
   * calls made n times over.  Only the newest 255 copies and keys before it are processed.
   */
  lemma FanOutCalls(list: seq<Registration>, partialKeys: bool, q: seq<Key>, notify: seq<Key>, key: Key)
    requires (!Partial(key) || partialKeys) && |notify| < MAX_COUNT
    ensures var n := |Reached(list, key)|;
      var m := Least(n, MAX_COUNT - 1);
      var (q', notify') := FannedOut(list, partialKeys, q, notify, key);
      && q' == Pushed(q, key)
      && Processed(list, notify') ==
           Processed(list, Newest(notify, MAX_COUNT - 1 - m)) + Repeated(CallsFor(Reached(list, key), key), m)
      && (|notify| + n < MAX_COUNT ==>
            && Processed(list, notify') == Processed(list, notify) + Repeated(CallsFor(Reached(list, key), key), n)
            && |Processed(list, notify')| == |Processed(list, notify)| + n * n)
  {
    hide Reached, Processed, Repeated, FannedOut, Partial;
    CopiesProcessed(list, partialKeys, q, notify, key);
    RepeatedLength(CallsFor(Reached(list, key), key), |Reached(list, key)|);
  }

  /** The two queues after a run of keys, first one first. */
  function RunFannedOut(list: seq<Registration>, partialKeys: bool, q: seq<Key>, notify: seq<Key>, keys: seq<Key>): (seq<Key>, seq<Key>) {
    if keys == [] then (q, notify)
    else
      var (q', notify') := RunFannedOut(list, partialKeys, q, notify, keys[..|keys| - 1]);
      FannedOut(list, partialKeys, q', notify', keys[|keys| - 1])
  }

  /** The copies that a key puts into the notify queue. */
  function Width(list: seq<Registration>, partialKeys: bool, key: Key): nat {
    if Partial(key) && !partialKeys then 0 else |Reached(list, key)|
  }

  /** The copies of all keys of a run. */
  function RunWidth(list: seq<Registration>, partialKeys: bool, keys: seq<Key>): nat {
    if keys == [] then 0
    else RunWidth(list, partialKeys, keys[..|keys| - 1]) + Width(list, partialKeys, keys[|keys| - 1])
  }

  /** The calls of a run: for every key that reaches n callbacks, these n calls n times over. */
  function RunCalls(list: seq<Registration>, partialKeys: bool, keys: seq<Key>): seq<Call> {
    if keys == [] then []
    else
      var key := keys[|keys| - 1];
      RunCalls(list, partialKeys, keys[..|keys| - 1]) + Repeated(CallsFor(Reached(list, key), key), Width(list, partialKeys, key))
  }

  /** The keys of a run that are let through. */
  function Delivered(partialKeys: bool, keys: seq<Key>): seq<Key> {
    if keys == [] then []
    else
      var key := keys[|keys| - 1];
      Delivered(partialKeys, keys[..|keys| - 1]) + if Partial(key) && !partialKeys then [] else [key]
  }

  /** One key more. */
  lemma KeyFansOut(list: seq<Registration>, partialKeys: bool, q: seq<Key>, notify: seq<Key>, key: Key)
    requires |notify| + Width(list, partialKeys, key) < MAX_COUNT
    ensures var (q', notify') := FannedOut(list, partialKeys, q, notify, key);
      && q' == PushedAll(q, Delivered(partialKeys, [key]))
      && |notify'| == |notify| + Width(list, partialKeys, key)
      && Processed(list, notify') ==
           Processed(list, notify) + Repeated(CallsFor(Reached(list, key), key), Width(list, partialKeys, key))
  {
    OneDelivered(partialKeys, q, key);
    NoRepeats(CallsFor(Reached(list, key), key));
    if Partial(key) && !partialKeys {
      hide Reached, Processed, Repeated, Partial, PushedAll, Delivered;
    } else {
      hide Reached, Processed, Repeated, Partial, PushedAll, Delivered, FannedOut, Matches, Pushed;
      CopiesProcessed(list, partialKeys, q, notify, key);
    }
  }

  lemma OneDelivered(partialKeys: bool, q: seq<Key>, key: Key)
    ensures PushedAll(q, Delivered(partialKeys, [key])) == if Partial(key) && !partialKeys then q else Pushed(q, key)
  {
    hide Partial, Pushed;
    assert [key][..0] == [] && [] + [key] == [key];
  }

  lemma NoRepeats(calls: seq<Call>)
    ensures Repeated(calls, 0) == []
  {
  }

  lemma DeliveredStep(partialKeys: bool, q: seq<Key>, keys: seq<Key>)
    requires keys != []
    ensures var before, key := keys[..|keys| - 1], keys[|keys| - 1];
      PushedAll(q, Delivered(partialKeys, keys)) == PushedAll(PushedAll(q, Delivered(partialKeys, before)), Delivered(partialKeys, [key]))
  {
    hide Partial, Pushed;
    var before, key := keys[..|keys| - 1], keys[|keys| - 1];
    var d := Delivered(partialKeys, before);
    OneDelivered(partialKeys, PushedAll(q, d), key);
    if Partial(key) && !partialKeys {
      assert d + [] == d;
    } else {
      assert (d + [key])[..|d|] == d;
    }
  }

  /**
   * Keys pushed one after the other before the handler runs, without overflow of the notify
   * queue: the read queue gets each of them once, and the handler then makes, behind the
   * calls that were due already, those of every key in order.
   */
  lemma {:induction false} RunFansOut(list: seq<Registration>, partialKeys: bool, q: seq<Key>, notify: seq<Key>, keys: seq<Key>)
    requires |notify| + RunWidth(list, partialKeys, keys) < MAX_COUNT
    ensures var (q', notify') := RunFannedOut(list, partialKeys, q, notify, keys);
      && q' == PushedAll(q, Delivered(partialKeys, keys))
      && |notify'| == |notify| + RunWidth(list, partialKeys, keys)
      && Processed(list, notify') == Processed(list, notify) + RunCalls(list, partialKeys, keys)
  {
    hide Processed, Repeated, FannedOut, Width, PushedAll, Delivered;
    if keys == [] {
      NoneDelivered(partialKeys, q);
      assert Processed(list, notify) + [] == Processed(list, notify);
    } else {
      var before, key := keys[..|keys| - 1], keys[|keys| - 1];
      RunFansOut(list, partialKeys, q, notify, before);
      var (q1, notify1) := RunFannedOut(list, partialKeys, q, notify, before);
      DeliveredStep(partialKeys, q, keys);
      KeyFansOut(list, partialKeys, q1, notify1, key);
    }
  }

  lemma NoneDelivered(partialKeys: bool, q: seq<Key>)
    ensures PushedAll(q, Delivered(partialKeys, [])) == q
  {
  }

  // ---- waiting for a key ----

  /** The queue without its leading partial keys. */
  function Skipped(q: seq<Key>): seq<Key> {
    if q != [] && Partial(q[0]) then Skipped(q[1..]) else q
  }

  /** Exactly the leading partial keys are left out, and a full key is left exactly if one was queued. */
  lemma {:induction false} SkippedDropsPartial(q: seq<Key>)
    ensures var r := Skipped(q);
      && |r| <= |q| && r == q[|q| - |r|..]
      && (forall k :: 0 <= k < |q| - |r| ==> Partial(q[k])) && (r == [] || !Partial(r[0]))
      && (r != [] <==> exists k :: 0 <= k < |q| && !Partial(q[k]))
  {
    hide Partial;
    if q != [] && Partial(q[0]) {
      SkippedDropsPartial(q[1..]);
      if k :| 0 <= k < |q| && !Partial(q[k]) {
        assert q[1..][k - 1] == q[k];
      }
    } else if q != [] {
      assert !Partial(q[0]);
    }
  }

  lemma ReachedStep(list: seq<Registration>, i: nat, key: Key)
    requires i < |list|
    ensures Reached(list[..i + 1], key) == Reached(list[..i], key) + (if Matches(list[i].key, key) then [list[i].fn] else [])
    ensures list[..|list|] == list
  {
    assert list[..i + 1][..i] == list[..i];
  }

  lemma NothingReached(list: seq<Registration>, notify: seq<Key>, key: Key)
    ensures Reached(list[..0], key) == [] && PushedAll(notify, Copies(key, 0)) == notify
    ensures list[..|list|] == list
  {
  }

  lemma CallsStep(fns: seq<nat>, fn: nat, key: Key)
    ensures CallsFor(fns + [fn], key) == CallsFor(fns, key) + [Call(fn, key)]
  {
  }

  lemma CopiesStep(notify: seq<Key>, key: Key, n: nat)
    ensures PushedAll(notify, Copies(key, n + 1)) == Pushed(PushedAll(notify, Copies(key, n)), key)
  {
    assert Copies(key, n + 1)[..n] == Copies(key, n);
  }

  lemma NothingProcessed(list: seq<Registration>)
    ensures Processed(list, []) == []
  {
  }

  lemma ProcessedStep(list: seq<Registration>, before: seq<Call>, q: seq<Key>)
    requires q != []
    ensures before + Processed(list, q) == before + CallsFor(Reached(list, q[0]), q[0]) + Processed(list, q[1..])
  {
    hide Reached, CallsFor;
  }

  // ---- the driver's instance ----

  class ConsoleIn {
    const efiKeyQueue: KeyQueue
    const efiKeyQueueForNotify: KeyQueue
    var notifyList: seq<Registration>
    var isSupportPartialKey: bool
    var keypadErr: bool
    /** Is KeyNotifyProcessEvent signalled? */
    var signalled: bool
    /** The callbacks called so far. */
    var calls: seq<Call>

    ghost predicate Valid()
      reads this, efiKeyQueue, efiKeyQueueForNotify
    {
      && efiKeyQueue != efiKeyQueueForNotify && efiKeyQueue.buffer != efiKeyQueueForNotify.buffer
      && efiKeyQueue.Valid() && efiKeyQueueForNotify.Valid()
      && ListOk(notifyList)
    }

    ghost function Keys(): seq<Key>
      requires Valid()
      reads this, efiKeyQueue, efiKeyQueue.buffer, efiKeyQueueForNotify
    {
      efiKeyQueue.Contents()
    }

    ghost function NotifyKeys(): seq<Key>
      requires Valid()
      reads this, efiKeyQueue, efiKeyQueueForNotify, efiKeyQueueForNotify.buffer
    {
      efiKeyQueueForNotify.Contents()
    }

    constructor ()
      ensures Valid() && fresh(efiKeyQueue) && fresh(efiKeyQueueForNotify)
      ensures fresh(efiKeyQueue.buffer) && fresh(efiKeyQueueForNotify.buffer)
      ensures Keys() == [] && NotifyKeys() == [] && notifyList == [] && calls == []
    {
      efiKeyQueue := new KeyQueue();
      efiKeyQueueForNotify := new KeyQueue();
      notifyList, calls := [], [];
      isSupportPartialKey, keypadErr, signalled := false, false, false;
    }

    /** pool is what AllocateZeroPool returns, if it is called. */
    method RegisterKeyNotify(key: Key, fn: nat, pool: Option<nat>) returns (handle: Option<nat>)
      requires Valid() && CanChange(notifyList, Register(key, fn, pool))
      modifies this`notifyList
      ensures Valid() && (notifyList, handle) == Registered(old(notifyList), pool, key, fn)
    {
      hide Matches;
      for i := 0 to |notifyList|
        invariant Existing(notifyList, 0, key, fn) == Existing(notifyList, i, key, fn)
      {
        if Matches(notifyList[i].key, key) {
          if notifyList[i].fn == fn {
            return Some(notifyList[i].handle);
          }
        }
      }
      if pool.None? {
        return None;
      }
      ChangeKeepsList(notifyList, Register(key, fn, pool));
      handle := pool;
      notifyList := notifyList + [Registration(handle.value, key, fn)];
    }

    method UnregisterKeyNotify(handle: nat) returns (found: bool)
      requires Valid()
      modifies this`notifyList
      ensures Valid() && notifyList == Unregistered(old(notifyList), handle)
      ensures found == exists r :: r in old(notifyList) && r.handle == handle
    {
      hide Matches;
      for i := 0 to |notifyList|
        invariant Holder(notifyList, 0, handle) == Holder(notifyList, i, handle)
        invariant forall j :: 0 <= j < i ==> notifyList[j].handle != handle
      {
        if notifyList[i].handle == handle {
          notifyList := notifyList[..i] + notifyList[i + 1..];
          return true;
        }
      }
      return false;
    }

    /** KeypadReturnApiPushEfikeyBufTail: one copy to the notify queue for every match. */
    method PushKey(key: Key)
      requires Valid()
      modifies this`signalled, efiKeyQueue, efiKeyQueue.buffer, efiKeyQueueForNotify, efiKeyQueueForNotify.buffer
      ensures Valid()
      ensures (Keys(), NotifyKeys()) == FannedOut(notifyList, isSupportPartialKey, old(Keys()), old(NotifyKeys()), key)
      ensures signalled == (old(signalled) || (Reached(notifyList, key) != [] && !(Partial(key) && !isSupportPartialKey)))
    {
      hide Matches, ListOk, Pushed, PushedAll, Reached;
      NothingReached(notifyList, NotifyKeys(), key);
      if key.scanCode == 0 && key.unicodeChar == 0 {
        if !isSupportPartialKey {
          return;
        }
      }
      ghost var notify := NotifyKeys();
      for i := 0 to |notifyList|
        invariant Valid() && Keys() == old(Keys())
        invariant NotifyKeys() == PushedAll(notify, Copies(key, |Reached(notifyList[..i], key)|))
        invariant signalled == (old(signalled) || Reached(notifyList[..i], key) != [])
      {
        ReachedStep(notifyList, i, key);
        if Matches(notifyList[i].key, key) {
          CopiesStep(notify, key, |Reached(notifyList[..i], key)|);
          efiKeyQueueForNotify.Push(key);
          signalled := true;
        }
      }
      efiKeyQueue.Push(key);
    }

    /** The loop over the list for one key. */
    method CallMatching(key: Key)
      modifies this`calls
      ensures calls == old(calls) + CallsFor(Reached(notifyList, key), key)
    {
      hide Matches, Reached;
      NothingReached(notifyList, [], key);
      for i := 0 to |notifyList|
        invariant calls == old(calls) + CallsFor(Reached(notifyList[..i], key), key)
      {
        ReachedStep(notifyList, i, key);
        if Matches(notifyList[i].key, key) {
          CallsStep(Reached(notifyList[..i], key), notifyList[i].fn, key);
          calls := calls + [Call(notifyList[i].fn, key)];
        }
      }
    }

    /** KeyNotifyProcessHandler; the callbacks leave the list as it is. */
    method ProcessNotify()
      requires Valid()
      modifies this`calls, efiKeyQueueForNotify`head
      ensures Valid() && NotifyKeys() == [] && Keys() == old(Keys())
      ensures calls == old(calls) + Processed(notifyList, old(NotifyKeys()))
    {
      hide Matches, ListOk, CallsFor, Reached, Processed;
      ghost var all := Processed(notifyList, NotifyKeys());
      NothingProcessed(notifyList);
      var ok := true;
      while ok
        invariant Valid() && Keys() == old(Keys())
        invariant calls + Processed(notifyList, NotifyKeys()) == old(calls) + all
        invariant !ok ==> NotifyKeys() == []
        decreases |NotifyKeys()| + (if ok then 1 else 0)
      {
        ghost var q := NotifyKeys();
        var key;
        ok, key := efiKeyQueueForNotify.Pop();
        if ok {
          assert NotifyKeys() == q[1..];
          ProcessedStep(notifyList, calls, q);
          CallMatching(key);
        }
      }
    }

    /** KeypadTimerHandler: the keypad has reported keys, one after the other. */
    method TimerHandler(reported: seq<Key>)
      requires Valid()
      modifies this`signalled, efiKeyQueue, efiKeyQueue.buffer, efiKeyQueueForNotify, efiKeyQueueForNotify.buffer
      ensures Valid()
      ensures (Keys(), NotifyKeys()) == if keypadErr then (old(Keys()), old(NotifyKeys()))
        else RunFannedOut(notifyList, isSupportPartialKey, old(Keys()), old(NotifyKeys()), reported)
    {
      hide ListOk, FannedOut;
      if keypadErr {
        return;
      }
      for i := 0 to |reported|
        invariant Valid()
        invariant (Keys(), NotifyKeys()) == RunFannedOut(notifyList, isSupportPartialKey, old(Keys()), old(NotifyKeys()), reported[..i])
      {
        assert reported[..i + 1][..i] == reported[..i];
        PushKey(reported[i]);
      }
      assert reported[..|reported|] == reported;
    }

    /** KeypadWaitForKey: polls the keypad, then drops partial keys; true if the event is signalled. */
    method WaitForKey(reported: seq<Key>) returns (signal: bool)
      requires Valid()
      modifies this`signalled, efiKeyQueue, efiKeyQueue.buffer, efiKeyQueueForNotify, efiKeyQueueForNotify.buffer
      ensures Valid()
      ensures keypadErr ==> !signal && Keys() == old(Keys()) && NotifyKeys() == old(NotifyKeys())
      ensures !keypadErr ==>
        var (q, notify) := RunFannedOut(notifyList, isSupportPartialKey, old(Keys()), old(NotifyKeys()), reported);
        Keys() == Skipped(q) && NotifyKeys() == notify && signal == (Skipped(q) != [])
    {
      hide ListOk, Partial;
      TimerHandler(reported);
      if keypadErr {
        return false;
      }
      ghost var q, notify := Keys(), NotifyKeys();
      var empty := efiKeyQueue.IsEmpty();
      while !empty
        invariant Valid() && NotifyKeys() == notify
        invariant Skipped(Keys()) == Skipped(q) && empty == (Keys() == [])
        decreases |Keys()|
      {
        var key := efiKeyQueue.buffer[efiKeyQueue.head];
        assert key == Keys()[0];
        if !Partial(key) {
          return true;
        }
        var ok, popped := efiKeyQueue.Pop();
        empty := efiKeyQueue.IsEmpty();
      }
      return false;
    }
  }
}
