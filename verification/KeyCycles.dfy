/**
 * Press cycles over whole runs of polls: from the poll that sees a key pressed to the
 * poll that brings its context back to released (KeypadDeviceImplLib.c, lines 79-173).
 */
module KeyCycles {
  import opened KeySpec

  // ---- watching a key ----

  /** Was the press long, and if so, what did the poll see that found out, after how much time? */
  datatype Recognition = Short | Long(input: Input, after: nat)

  /** A press cycle: the events it reported, the time it has lasted, the recognition. */
  datatype Cycle = Cycle(events: seq<Key>, elapsed: nat, recognized: Recognition)

  const NO_CYCLE := Cycle([], 0, Short)

  /** The context of a key, its cycle so far, its completed cycles and all events it has reported. */
  datatype Monitor = Monitor(context: Context, open: Cycle, done: seq<Cycle>, emitted: seq<Key>)

  const START := Monitor(IDLE, NO_CYCLE, [], [])

  function Watch(key: Key, m: Monitor, i: Input): Monitor {
    var (c, events) := Next(key, m.context, i);
    var elapsed := if m.context.phase.Released? then 0 else m.open.elapsed + i.delta;
    var recognized := if c.longpress && !m.context.longpress then Long(i, elapsed) else m.open.recognized;
    var open := Cycle(m.open.events + events, elapsed, recognized);
    if !m.context.phase.Released? && c.phase.Released? then Monitor(c, NO_CYCLE, m.done + [open], m.emitted + events)
    else Monitor(c, open, m.done, m.emitted + events)
  }

  /** The monitor after a run of inputs, first one first. */
  function WatchAll(key: Key, inputs: seq<Input>): Monitor {
    if inputs == [] then START else Watch(key, WatchAll(key, inputs[..|inputs| - 1]), inputs[|inputs| - 1])
  }

  // ---- what a cycle looks like ----

  ghost predicate AllAre(events: seq<Key>, key: Key) {
    forall k :: 0 <= k < |events| ==> events[k] == key
  }

  /** The nth repeat is due after 500 ms and 200 ms for every repeat before it. */
  function Due(n: nat): int {
    LONG + REPEAT * (n - 1)
  }

  /** The events reported by a cycle that was recognized as long. */
  ghost predicate LongEvents(key: Key, c: Cycle)
    requires c.recognized.Long?
  {
    && LONG <= c.recognized.after <= c.elapsed
    && if key == POWER then c.events == [Combo(c.recognized.input)]
       else if c.recognized.input.power then c.events == []
       else |c.events| >= 1 && AllAre(c.events, key) && c.elapsed >= Due(|c.events|)
  }

  /**
   * A completed cycle.  Short press: the key itself, once.  Long press of the power key:
   * one combination event.  Long press of a volume key: nothing if power was held, and
   * otherwise repeats, each of them due.
   */
  ghost predicate CycleOk(key: Key, c: Cycle) {
    match c.recognized
    case Short => c.events == [key]
    case Long(_, _) => LongEvents(key, c)
  }

  /** The invariant that ties a key's context to its open cycle. */
  ghost predicate Tracks(key: Key, c: Context, open: Cycle) {
    match c.phase
    case Released => open == NO_CYCLE && !c.repeat && !c.longpress
    case LongpressRelease => open.events == [key] && open.recognized == Short && !c.repeat && !c.longpress
    case Pressed =>
      if !c.longpress then open.events == [] && open.recognized == Short && !c.repeat && c.time <= open.elapsed
      else
        && open.recognized.Long? && LongEvents(key, open)
        && c.repeat == (key != POWER && !open.recognized.input.power)
        && (c.repeat ==> open.elapsed >= Due(|open.events|) + c.time)
  }

  function Flatten(cycles: seq<Cycle>): seq<Key> {
    if cycles == [] then [] else Flatten(cycles[..|cycles| - 1]) + cycles[|cycles| - 1].events
  }

  ghost predicate MonitorOk(key: Key, m: Monitor) {
    && Tracks(key, m.context, m.open)
    && (forall k :: 0 <= k < |m.done| ==> CycleOk(key, m.done[k]))
    && m.emitted == Flatten(m.done) + m.open.events
  }

  predicate IsKey(key: Key) {
    key == POWER || key == VOLUME_UP || key == VOLUME_DOWN
  }

  /** One poll. */
  lemma WatchTracks(key: Key, m: Monitor, i: Input)
    requires IsKey(key) && Tracks(key, m.context, m.open)
    ensures var r := Watch(key, m, i);
      && Tracks(key, r.context, r.open)
      && (r.done == m.done || (|r.done| == |m.done| + 1 && r.done[..|m.done|] == m.done && CycleOk(key, r.done[|m.done|])))
  {
    hide Wrap;
  }

  lemma WatchEmits(key: Key, m: Monitor, i: Input)
    requires m.emitted == Flatten(m.done) + m.open.events
    ensures var r := Watch(key, m, i); r.emitted == Flatten(r.done) + r.open.events
  {
    hide Next;
    var r := Watch(key, m, i);
    var events := Next(key, m.context, i).1;
    assert (Flatten(m.done) + m.open.events) + events == Flatten(m.done) + (m.open.events + events);
    if r.done != m.done {
      assert r.done[..|r.done| - 1] == m.done;
    }
  }

  /**
   * Over every run of polls each completed cycle is as it should be, and the events
   * reported are those of the cycles, in order, and no others.
   */
  lemma {:induction false} RunsAreCycles(key: Key, inputs: seq<Input>)
    requires IsKey(key)
    ensures MonitorOk(key, WatchAll(key, inputs))
  {
    hide Next, Tracks, CycleOk, Watch;
    if inputs == [] {
      StartOk(key);
    } else {
      var m, i := WatchAll(key, inputs[..|inputs| - 1]), inputs[|inputs| - 1];
      RunsAreCycles(key, inputs[..|inputs| - 1]);
      WatchTracks(key, m, i);
      WatchEmits(key, m, i);
    }
  }

  lemma StartOk(key: Key)
    ensures MonitorOk(key, START)
  {
  }

  /** Nothing is withheld either: a poll that sees the key down leaves no event overdue. */
  lemma PollIsPrompt(key: Key, c: Context, i: Input)
    requires c.phase.Pressed? && i.pressed && (c.repeat ==> c.longpress)
    ensures var (r, events) := Next(key, c, i);
      && (r.repeat ==> r.time < REPEAT) && (!r.longpress ==> r.time < LONG)
      && (events != [] <==>
           ((c.repeat && Wrap(c.time + i.delta) >= REPEAT)
            || (!c.longpress && Wrap(c.time + i.delta) >= LONG && (key.unicodeChar == CHAR_CARRIAGE_RETURN || !i.power))))
  {
    hide Wrap;
  }

  // ---- the three keys of the device ----

  /** The device after a run of polls; before it, its contexts are reset and h is what the bitmaps hold. */
  function DeviceAfter(h: Held, polls: seq<Poll>): Device {
    if polls == [] then Device(IDLE, IDLE, IDLE, h)
    else GetKeys(DeviceAfter(h, polls[..|polls| - 1]), polls[|polls| - 1]).0
  }

  /** The events of the run. */
  function DeviceEvents(h: Held, polls: seq<Poll>): seq<Key> {
    if polls == [] then []
    else DeviceEvents(h, polls[..|polls| - 1]) + GetKeys(DeviceAfter(h, polls[..|polls| - 1]), polls[|polls| - 1]).1
  }

  function Level(key: Key, p: Poll): bool {
    if key == VOLUME_DOWN then p.down else if key == VOLUME_UP then p.up else p.power
  }

  /** The level of a pin in the last poll, or what the bitmap held before the first one. */
  function LastLevel(key: Key, h: Held, polls: seq<Poll>): bool {
    if polls == [] then (if key == VOLUME_DOWN then h.down else if key == VOLUME_UP then h.up else h.power)
    else Level(key, polls[|polls| - 1])
  }

  /**
   * What a key sees in the last poll: the keys before it in the order of polling at their
   * present level, the keys behind it at the level of the poll before.
   */
  function Seen(key: Key, h: Held, polls: seq<Poll>): Input
    requires polls != []
  {
    var p, before := polls[|polls| - 1], polls[..|polls| - 1];
    Input(Level(key, p), p.delta,
          p.down,
          if key == VOLUME_DOWN then LastLevel(VOLUME_UP, h, before) else p.up,
          if key == POWER then p.power else LastLevel(POWER, h, before))
  }

  function AllSeen(key: Key, h: Held, polls: seq<Poll>): seq<Input> {
    if polls == [] then [] else AllSeen(key, h, polls[..|polls| - 1]) + [Seen(key, h, polls)]
  }

  function ContextOf(key: Key, d: Device): Context {
    if key == VOLUME_DOWN then d.down else if key == VOLUME_UP then d.up else d.power
  }

  lemma {:induction false} HeldIsLastLevel(h: Held, polls: seq<Poll>)
    ensures DeviceAfter(h, polls).held
      == Held(LastLevel(VOLUME_DOWN, h, polls), LastLevel(VOLUME_UP, h, polls), LastLevel(POWER, h, polls))
  {
    hide Next;
  }

  /** Each key of the device runs by itself, on what it sees of the others. */
  lemma {:induction false} KeysAreIndependent(key: Key, h: Held, polls: seq<Poll>)
    requires IsKey(key)
    ensures ContextOf(key, DeviceAfter(h, polls)) == WatchAll(key, AllSeen(key, h, polls)).context
  {
    hide Next;
    if polls != [] {
      var before := polls[..|polls| - 1];
      KeysAreIndependent(key, h, before);
      HeldIsLastLevel(h, before);
      var inputs := AllSeen(key, h, polls);
      assert inputs[..|inputs| - 1] == AllSeen(key, h, before);
    }
  }

  /** What a key reports, input by input. */
  function Emissions(key: Key, inputs: seq<Input>): (r: seq<seq<Key>>)
    ensures |r| == |inputs|
  {
    if inputs == [] then []
    else
      var before, i := inputs[..|inputs| - 1], inputs[|inputs| - 1];
      Emissions(key, before) + [Next(key, WatchAll(key, before).context, i).1]
  }

  function Concatenated(parts: seq<seq<Key>>): seq<Key> {
    if parts == [] then [] else Concatenated(parts[..|parts| - 1]) + parts[|parts| - 1]
  }

  /** A key's events are its emissions in a row. */
  lemma {:induction false} EmittedIs(key: Key, inputs: seq<Input>)
    ensures WatchAll(key, inputs).emitted == Concatenated(Emissions(key, inputs))
  {
    hide Next;
    if inputs != [] {
      EmittedIs(key, inputs[..|inputs| - 1]);
      var e := Emissions(key, inputs);
      assert e[..|e| - 1] == Emissions(key, inputs[..|inputs| - 1]);
    }
  }

  /** Three reports, poll by poll: volume down's first, then volume up's, then power's. */
  function Interleaved(down: seq<seq<Key>>, up: seq<seq<Key>>, power: seq<seq<Key>>): seq<Key>
    requires |down| == |up| == |power|
  {
    if down == [] then []
    else
      var n := |down| - 1;
      Interleaved(down[..n], up[..n], power[..n]) + (down[n] + up[n] + power[n])
  }

  lemma {:induction false} AllSeenLength(key: Key, h: Held, polls: seq<Poll>)
    ensures |AllSeen(key, h, polls)| == |polls|
  {
    hide Seen;
    if polls != [] {
      AllSeenLength(key, h, polls[..|polls| - 1]);
    }
  }

  /** What a key of the device reports over a run of polls. */
  function Reports(key: Key, h: Held, polls: seq<Poll>): (r: seq<seq<Key>>)
    ensures |r| == |polls|
  {
    AllSeenLength(key, h, polls);
    Emissions(key, AllSeen(key, h, polls))
  }

  lemma ReportsStep(key: Key, h: Held, polls: seq<Poll>)
    requires IsKey(key) && polls != []
    ensures var before, r := polls[..|polls| - 1], Reports(key, h, polls);
      && r[..|polls| - 1] == Reports(key, h, before)
      && r[|polls| - 1] == Next(key, ContextOf(key, DeviceAfter(h, before)), Seen(key, h, polls)).1
  {
    hide Next, Seen;
    var before := polls[..|polls| - 1];
    KeysAreIndependent(key, h, before);
    AllSeenLength(key, h, before);
    var inputs := AllSeen(key, h, polls);
    assert inputs[..|inputs| - 1] == AllSeen(key, h, before);
  }

  /** What the device reports over every run is what its three keys report by themselves, in the order of polling. */
  lemma {:induction false} EventsAreTheKeys(h: Held, polls: seq<Poll>)
    ensures DeviceEvents(h, polls)
      == Interleaved(Reports(VOLUME_DOWN, h, polls), Reports(VOLUME_UP, h, polls), Reports(POWER, h, polls))
  {
    hide Next, Reports;
    if polls != [] {
      var before, p := polls[..|polls| - 1], polls[|polls| - 1];
      EventsAreTheKeys(h, before);
      ReportsStep(VOLUME_DOWN, h, polls);
      ReportsStep(VOLUME_UP, h, polls);
      ReportsStep(POWER, h, polls);
      HeldIsLastLevel(h, before);
      var d := DeviceAfter(h, before);
      assert GetKeys(d, p).1 == Next(VOLUME_DOWN, d.down, Seen(VOLUME_DOWN, h, polls)).1
        + Next(VOLUME_UP, d.up, Seen(VOLUME_UP, h, polls)).1 + Next(POWER, d.power, Seen(POWER, h, polls)).1;
    }
  }
}
