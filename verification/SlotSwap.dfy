/**
 * What SwitchPtnSlots does to the type GUIDs (PartitionTableUpdate.c, lines 443-592).
 */
module SlotSwap {
  import opened SlotTypes
  import opened SlotSpec

  // ---- for every table: a permutation of the GUIDs ----

  function Guids(mem: seq<Entry>): (g: seq<Guid>)
    ensures |g| == |mem| && forall i :: 0 <= i < |mem| ==> g[i] == mem[i].typeGuid
  {
    seq(|mem|, i requires 0 <= i < |mem| => mem[i].typeGuid)
  }

  /** The tables agree in everything but the type GUIDs. */
  ghost predicate SameButGuids(mem: seq<Entry>, t: seq<Entry>) {
    |mem| == |t| && forall i :: 0 <= i < |mem| ==> t[i] == mem[i].(typeGuid := t[i].typeGuid)
  }

  ghost predicate SameNames(mem: seq<Entry>, t: seq<Entry>) {
    |mem| == |t| && forall i :: 0 <= i < |mem| ==> t[i].name == mem[i].name
  }

  lemma GuidsKeepNames(mem: seq<Entry>, t: seq<Entry>)
    requires SameButGuids(mem, t)
    ensures SameNames(mem, t)
  {
    forall i | 0 <= i < |mem|
      ensures t[i].name == mem[i].name
    {
      assert t[i] == mem[i].(typeGuid := t[i].typeGuid);
    }
  }

  /** Searching a table looks at the names only. */
  lemma {:induction false} IndexKept(mem: seq<Entry>, t: seq<Entry>, count: nat, i: nat, name: Str16)
    requires i <= count <= |mem| && SameNames(mem, t)
    ensures IndexFrom(t, count, i, name) == IndexFrom(mem, count, i, name)
    decreases count - i
  {
    if i < count {
      IndexKept(mem, t, count, i + 1, name);
    }
  }

  lemma BootIndexKept(mem: seq<Entry>, t: seq<Entry>, count: nat, suffix: Str16)
    requires count <= |mem| && SameNames(mem, t)
    ensures BootIndex(t, count, suffix) == BootIndex(mem, count, suffix)
  {
    IndexKept(mem, t, count, 0, BOOT_A);
    IndexKept(mem, t, count, 0, BOOT_B);
  }

  /** So does the making of the list. */
  lemma {:induction false} PartsListKept(mem: seq<Entry>, t: seq<Entry>, count: nat, n: nat)
    requires n <= count <= |mem| && SameNames(mem, t)
    ensures PartsList(t, count, n) == PartsList(mem, count, n)
  {
    hide Slotted, Siblings;
    if n > 0 {
      PartsListKept(mem, t, count, n - 1);
      assert Listed(t, count, n - 1) == Listed(mem, count, n - 1);
    }
  }

  lemma ExchangedPermutes(mem: seq<Entry>, i: nat, j: nat)
    requires i < |mem| && j < |mem|
    ensures multiset(Guids(Exchanged(mem, i, j))) == multiset(Guids(mem))
    ensures SameButGuids(mem, Exchanged(mem, i, j))
  {
    var g := Guids(mem);
    assert Guids(Exchanged(mem, i, j)) == g[i := g[j]][j := g[i]];
  }

  /** The exchange pass only permutes type GUIDs, whatever the names. */
  lemma {:induction false} SwapNodesPermutes(mem: seq<Entry>, count: nat, parts: seq<Str16>, active: Str16)
    requires count <= |mem|
    ensures multiset(Guids(SwapNodes(mem, count, parts, active))) == multiset(Guids(mem))
    ensures SameButGuids(mem, SwapNodes(mem, count, parts, active))
    decreases |parts|
  {
    if parts == [] {
    } else {
      var m := SwapNode(mem, count, parts[0], active);
      SwapNodePermutes(mem, count, parts[0], active);
      SwapNodesPermutes(m, count, parts[1..], active);
    }
  }

  lemma SwapNodePermutes(mem: seq<Entry>, count: nat, base: Str16, active: Str16)
    requires count <= |mem|
    ensures multiset(Guids(SwapNode(mem, count, base, active))) == multiset(Guids(mem))
    ensures SameButGuids(mem, SwapNode(mem, count, base, active))
  {
    var cur, new_ := Cat(base, Inactive(active)), Cat(base, active);
    var i, j := LastCurrent(mem, count, cur), LastNew(mem, count, cur, new_);
    if i >= 0 && j >= 0 {
      ExchangedPermutes(mem, i, j);
    }
  }

  // ---- slot names ----

  predicate IsSuffix(s: Str16) {
    s == SUFFIX_A || s == SUFFIX_B
  }

  function OtherSuffix(s: Str16): Str16 {
    if s == SUFFIX_A then SUFFIX_B else SUFFIX_A
  }

  /** x_a or x_b. */
  predicate IsSlotName(n: Str16): (r: bool)
    ensures r ==> |n| >= 2
  {
    |n| >= 2 && IsSuffix(n[|n| - 2..])
  }

  function Base(n: Str16): Str16
    requires |n| >= 2
  {
    n[..|n| - 2]
  }

  /** The name of the other slot. */
  function Partner(n: Str16): Str16
    requires IsSlotName(n)
  {
    Base(n) + OtherSuffix(n[|n| - 2..])
  }

  lemma PartnerOfPartner(n: Str16)
    requires IsSlotName(n)
    ensures IsSlotName(Partner(n)) && Base(Partner(n)) == Base(n) && Partner(Partner(n)) == n && Partner(n) != n
  {
    var s := n[|n| - 2..];
    assert n == Base(n) + s;
    assert Partner(n)[|n| - 2..] == OtherSuffix(s);
    assert Partner(n)[|n| - 1] == OtherSuffix(s)[1];
    assert n[|n| - 1] == s[1];
  }

  lemma SlotNameParts(n: Str16, base: Str16, s: Str16)
    requires IsSuffix(s) && n == base + s
    ensures IsSlotName(n) && Base(n) == base && n[|n| - 2..] == s
  {
  }

  /** The table's entry of that name, or count. */
  function Find(mem: seq<Entry>, count: nat, name: Str16): (k: nat)
    requires count <= |mem|
    ensures k <= count && (k < count ==> mem[k].name == name)
  {
    IndexFrom(mem, count, 0, name)
  }

  /** A slot suffix fits behind the base in the 32 characters reserved for it. */
  predicate Short(base: Str16) {
    |base| + 2 < BOOT_PART_SIZE
  }

  /** Names that begin with a slot name of the given base are that slot name, and occur once. */
  ghost predicate CleanBase(mem: seq<Entry>, count: nat, base: Str16)
    requires count <= |mem|
  {
    && (forall i, s: Str16 :: 0 <= i < count && IsSuffix(s) && HasPrefix(mem[i].name, base + s) ==> mem[i].name == base + s)
    && (forall i, j, s: Str16 :: 0 <= i < j < count && IsSuffix(s) && mem[i].name == base + s ==> mem[j].name != base + s)
  }

  ghost predicate Clean(mem: seq<Entry>, count: nat, parts: seq<Str16>)
    requires count <= |mem|
  {
    forall k :: 0 <= k < |parts| && Short(parts[k]) ==> CleanBase(mem, count, parts[k])
  }

  lemma CleanKept(mem: seq<Entry>, t: seq<Entry>, count: nat, parts: seq<Str16>)
    requires count <= |mem| && SameNames(mem, t) && Clean(mem, count, parts)
    ensures Clean(t, count, parts)
  {
    forall k | 0 <= k < |parts| && Short(parts[k])
      ensures CleanBase(t, count, parts[k])
    {
      assert CleanBase(mem, count, parts[k]);
    }
  }

  lemma SuffixesDiffer(base: Str16, s: Str16, n: Str16)
    requires IsSuffix(s)
    ensures !(HasPrefix(n, base + s) && HasPrefix(n, base + OtherSuffix(s)))
  {
    PrefixChar(n, base + s, |base| + 1);
    PrefixChar(n, base + OtherSuffix(s), |base| + 1);
  }

  lemma PrefixChar(n: Str16, p: Str16, k: nat)
    requires k < |p|
    ensures HasPrefix(n, p) ==> |n| >= |p| && n[k] == p[k]
  {
  }

  lemma PrefixOfItself(n: Str16)
    ensures HasPrefix(n, n)
  {
  }

  /** On a clean base the two searches find exactly the two slots. */
  lemma SearchesFind(mem: seq<Entry>, count: nat, base: Str16, s: Str16)
    requires count <= |mem| && CleanBase(mem, count, base) && IsSuffix(s)
    ensures var i := LastCurrent(mem, count, base + s);
      if Find(mem, count, base + s) < count then i == Find(mem, count, base + s) else i < 0
    ensures var j := LastNew(mem, count, base + OtherSuffix(s), base + s);
      if Find(mem, count, base + s) < count then j == Find(mem, count, base + s) else j < 0
  {
    hide HasPrefix;
    var x := base + s;
    var k := Find(mem, count, x);
    PrefixOfItself(x);
    SuffixesDiffer(base, s, x);
    var i := LastCurrent(mem, count, x);
    var j := LastNew(mem, count, base + OtherSuffix(s), x);
    if i >= 0 {
      assert mem[i].name == x;
    }
    if j >= 0 {
      assert mem[j].name == x;
    }
  }

  /** A node that is too long finds no second slot. */
  lemma LongNode(mem: seq<Entry>, count: nat, base: Str16, s: Str16)
    requires count <= |mem| && !Short(base) && IsSuffix(s)
    ensures SwapNode(mem, count, base, s) == mem
  {
    hide HasPrefix;
    assert Cat(base, s) == base && Cat(base, Inactive(s)) == base;
  }

  /** The pass over one clean node, whichever slot is made active, exchanges its two slots. */
  lemma SwapNodeIs(mem: seq<Entry>, count: nat, base: Str16, s: Str16)
    requires count <= |mem| && Short(base) && CleanBase(mem, count, base) && IsSuffix(s)
    ensures var a, b := Find(mem, count, base + SUFFIX_A), Find(mem, count, base + SUFFIX_B);
      SwapNode(mem, count, base, s) == if a < count && b < count then Exchanged(mem, a, b) else mem
  {
    hide HasPrefix, Find, Exchanged;
    InactiveIs(s);
    SearchesFind(mem, count, base, s);
    SearchesFind(mem, count, base, OtherSuffix(s));
    var a, b := Find(mem, count, base + SUFFIX_A), Find(mem, count, base + SUFFIX_B);
    if a < count && b < count {
      ExchangedSymmetric(mem, a, b);
    }
  }

  lemma InactiveIs(s: Str16)
    requires IsSuffix(s)
    ensures Inactive(s) == OtherSuffix(s) && OtherSuffix(OtherSuffix(s)) == s && IsSuffix(OtherSuffix(s))
  {
  }

  lemma ExchangedSymmetric(mem: seq<Entry>, i: nat, j: nat)
    requires i < |mem| && j < |mem|
    ensures Exchanged(mem, i, j) == Exchanged(mem, j, i)
  {
  }

  // ---- the exact effect on a clean table ----

  function Occurrences(parts: seq<Str16>, base: Str16): nat {
    if parts == [] then 0 else (if parts[0] == base then 1 else 0) + Occurrences(parts[1..], base)
  }

  /** Entry i has a partner in the table. */
  predicate Paired(mem: seq<Entry>, count: nat, i: nat): (r: bool)
    requires i < count <= |mem|
    ensures r ==> IsSlotName(mem[i].name)
  {
    IsSlotName(mem[i].name) && |mem[i].name| < BOOT_PART_SIZE && Find(mem, count, Partner(mem[i].name)) < count
  }

  /** Where entry i's type GUID comes from when every base has been exchanged as often as it is listed. */
  function Origin(mem: seq<Entry>, count: nat, parts: seq<Str16>, i: nat): (k: nat)
    requires i < count <= |mem|
    ensures k < count
  {
    if Paired(mem, count, i) && Occurrences(parts, Base(mem[i].name)) % 2 == 1
    then Find(mem, count, Partner(mem[i].name))
    else i
  }

  /** The table in which every type GUID has come from its origin. */
  ghost predicate Rearranged(mem: seq<Entry>, count: nat, parts: seq<Str16>, t: seq<Entry>)
    requires count <= |mem|
  {
    && SameButGuids(mem, t)
    && (forall i :: 0 <= i < count ==> t[i].typeGuid == mem[Origin(mem, count, parts, i)].typeGuid)
    && (forall i :: count <= i < |mem| ==> t[i] == mem[i])
  }

  /** A slot of a clean base occurs once. */
  lemma CleanUnique(mem: seq<Entry>, count: nat, base: Str16, i: nat)
    requires count <= |mem| && CleanBase(mem, count, base) && i < count
    requires IsSlotName(mem[i].name) && Base(mem[i].name) == base
    ensures Find(mem, count, mem[i].name) == i
  {
    var s := mem[i].name[|mem[i].name| - 2..];
    assert mem[i].name == base + s;
    var k := Find(mem, count, mem[i].name);
  }

  /** One node moves the GUIDs of its two slots and no others. */
  lemma SwapNodeAt(mem: seq<Entry>, count: nat, base: Str16, s: Str16, i: nat)
    requires count <= |mem| && (Short(base) ==> CleanBase(mem, count, base)) && IsSuffix(s) && i < |mem|
    ensures SwapNode(mem, count, base, s)[i].typeGuid ==
      if i < count && Paired(mem, count, i) && Base(mem[i].name) == base
      then mem[Find(mem, count, Partner(mem[i].name))].typeGuid
      else mem[i].typeGuid
  {
    hide HasPrefix, Find, SwapNode;
    if !Short(base) {
      LongNode(mem, count, base, s);
      return;
    }
    SwapNodeIs(mem, count, base, s);
    var a, b := Find(mem, count, base + SUFFIX_A), Find(mem, count, base + SUFFIX_B);
    SlotNameParts(base + SUFFIX_A, base, SUFFIX_A);
    SlotNameParts(base + SUFFIX_B, base, SUFFIX_B);
    if i < count && IsSlotName(mem[i].name) && Base(mem[i].name) == base {
      CleanUnique(mem, count, base, i);
      NameSplits(mem[i].name);
    }
  }

  lemma NameSplits(n: Str16)
    requires IsSlotName(n)
    ensures n == Base(n) + SUFFIX_A || n == Base(n) + SUFFIX_B
  {
    assert n == Base(n) + n[|n| - 2..];
  }

  /** Base, partner and pairing depend on the names only. */
  lemma PairingKept(mem: seq<Entry>, t: seq<Entry>, count: nat, i: nat)
    requires i < count <= |mem| && SameNames(mem, t)
    ensures t[i].name == mem[i].name && Paired(t, count, i) == Paired(mem, count, i)
    ensures IsSlotName(mem[i].name) ==> Find(t, count, Partner(mem[i].name)) == Find(mem, count, Partner(mem[i].name))
  {
    assert t[i].name == mem[i].name;
    if IsSlotName(mem[i].name) {
      IndexKept(mem, t, count, 0, Partner(mem[i].name));
    }
  }

  /** The partner's partner is the entry itself. */
  lemma PartnerBack(mem: seq<Entry>, count: nat, base: Str16, i: nat)
    requires i < count <= |mem| && Paired(mem, count, i) && Base(mem[i].name) == base && CleanBase(mem, count, base)
    ensures var j := Find(mem, count, Partner(mem[i].name));
      Paired(mem, count, j) && Base(mem[j].name) == base && Find(mem, count, Partner(mem[j].name)) == i
  {
    hide Find, HasPrefix;
    PartnerOfPartner(mem[i].name);
    CleanUnique(mem, count, base, i);
  }

  /**
   * The exchange pass on a clean table: entry i receives its partner's type GUID exactly
   * if it has a partner and its base is listed an odd number of times.
   */
  lemma {:induction false} SwapNodesRearranges(mem: seq<Entry>, count: nat, parts: seq<Str16>, s: Str16)
    requires count <= |mem| && Clean(mem, count, parts) && IsSuffix(s)
    ensures Rearranged(mem, count, parts, SwapNodes(mem, count, parts, s))
    decreases |parts|
  {
    hide Find, HasPrefix, CleanBase, SwapNode, IsSlotName, Base, Partner, Paired;
    SwapNodesPermutes(mem, count, parts, s);
    if parts == [] {
      NothingListed(mem, count);
    } else {
      var m := SwapNode(mem, count, parts[0], s);
      SwapNodePermutes(mem, count, parts[0], s);
      GuidsKeepNames(mem, m);
      CleanKept(mem, m, count, parts);
      assert Clean(m, count, parts[1..]);
      SwapNodesRearranges(m, count, parts[1..], s);
      var t := SwapNodes(mem, count, parts, s);
      assert t == SwapNodes(m, count, parts[1..], s);
      forall i | 0 <= i < count
        ensures t[i].typeGuid == mem[Origin(mem, count, parts, i)].typeGuid
      {
        SwapStep(mem, m, count, parts, s, i);
      }
      forall i | count <= i < |mem|
        ensures t[i] == mem[i]
      {
        SwapNodeAt(mem, count, parts[0], s, i);
      }
    }
  }

  lemma NothingListed(mem: seq<Entry>, count: nat)
    requires count <= |mem|
    ensures Rearranged(mem, count, [], mem)
  {
    hide Origin;
    assert forall i :: 0 <= i < |mem| ==> mem[i] == mem[i].(typeGuid := mem[i].typeGuid);
    forall i | 0 <= i < count
      ensures Origin(mem, count, [], i) == i
    {
      NoOrigin(mem, count, i);
    }
  }

  lemma NoOrigin(mem: seq<Entry>, count: nat, i: nat)
    requires i < count <= |mem|
    ensures Origin(mem, count, [], i) == i
  {
  }

  lemma SwapStep(mem: seq<Entry>, m: seq<Entry>, count: nat, parts: seq<Str16>, s: Str16, i: nat)
    requires i < count <= |mem| && parts != [] && Clean(mem, count, parts) && IsSuffix(s)
    requires m == SwapNode(mem, count, parts[0], s) && SameButGuids(mem, m)
    ensures m[Origin(m, count, parts[1..], i)].typeGuid == mem[Origin(mem, count, parts, i)].typeGuid
  {
    hide Find, HasPrefix, CleanBase, SwapNode, IsSlotName, Partner;
    assert Short(parts[0]) ==> CleanBase(mem, count, parts[0]);
    GuidsKeepNames(mem, m);
    PairingKept(mem, m, count, i);
    SwapNodeAt(mem, count, parts[0], s, i);
    if Paired(mem, count, i) {
      var j := Find(mem, count, Partner(mem[i].name));
      SwapNodeAt(mem, count, parts[0], s, j);
      FoundIsPartner(mem, count, i);
      if Base(mem[i].name) == parts[0] {
        PartnerBack(mem, count, parts[0], i);
      }
    }
  }

  lemma FoundIsPartner(mem: seq<Entry>, count: nat, i: nat)
    requires i < count <= |mem| && Paired(mem, count, i)
    ensures var j := Find(mem, count, Partner(mem[i].name));
      mem[j].name == Partner(mem[i].name) && IsSlotName(mem[j].name) && Base(mem[j].name) == Base(mem[i].name)
  {
    PartnerOfPartner(mem[i].name);
  }

  ghost predicate SameTypes(mem: seq<Entry>, t: seq<Entry>) {
    |mem| == |t| && forall i :: 0 <= i < |mem| ==> t[i].typeGuid == mem[i].typeGuid
  }

  lemma {:induction false} SearchKept(mem: seq<Entry>, t: seq<Entry>, n: nat, cur: Str16, new_: Str16)
    requires n <= |mem| && SameNames(mem, t)
    ensures LastCurrent(t, n, cur) == LastCurrent(mem, n, cur) && LastNew(t, n, cur, new_) == LastNew(mem, n, cur, new_)
  {
    hide HasPrefix;
    if n > 0 {
      SearchKept(mem, t, n - 1, cur, new_);
    }
  }

  /** The pass moves type GUIDs by the names alone. */
  lemma {:induction false} SwapNodesKept(mem: seq<Entry>, t: seq<Entry>, count: nat, parts: seq<Str16>, s: Str16)
    requires count <= |mem| && SameNames(mem, t) && SameTypes(mem, t)
    ensures SameTypes(SwapNodes(mem, count, parts, s), SwapNodes(t, count, parts, s))
    ensures SameNames(mem, SwapNodes(mem, count, parts, s))
    decreases |parts|
  {
    hide SwapNode;
    if parts == [] {
    } else {
      SwapNodeKept(mem, t, count, parts[0], s);
      SwapNodesKept(SwapNode(mem, count, parts[0], s), SwapNode(t, count, parts[0], s), count, parts[1..], s);
    }
  }

  lemma SwapNodeKept(mem: seq<Entry>, t: seq<Entry>, count: nat, base: Str16, s: Str16)
    requires count <= |mem| && SameNames(mem, t) && SameTypes(mem, t)
    ensures SameTypes(SwapNode(mem, count, base, s), SwapNode(t, count, base, s))
    ensures SameNames(mem, SwapNode(mem, count, base, s)) && SameNames(SwapNode(mem, count, base, s), SwapNode(t, count, base, s))
  {
    hide HasPrefix;
    SearchKept(mem, t, count, Cat(base, Inactive(s)), Cat(base, s));
  }

  /**
   * Exchanging twice over the same list restores every type GUID, whichever slots are made
   * active, and whatever happens to the attributes in between (t' stands for t then).
   */
  lemma SwapNodesTwice(mem: seq<Entry>, t': seq<Entry>, count: nat, parts: seq<Str16>, s: Str16, s': Str16)
    requires count <= |mem| && Clean(mem, count, parts) && IsSuffix(s) && IsSuffix(s')
    requires SameNames(mem, t') && SameTypes(SwapNodes(mem, count, parts, s), t')
    ensures SameTypes(mem, SwapNodes(t', count, parts, s'))
  {
    hide Find, HasPrefix, CleanBase, SwapNode, SwapNodes, IsSlotName, Base, Partner, Paired, Occurrences, Origin;
    SwapNodesRearranges(mem, count, parts, s);
    CleanKept(mem, t', count, parts);
    SwapNodesRearranges(t', count, parts, s');
    var u := SwapNodes(t', count, parts, s');
    forall i | 0 <= i < |mem|
      ensures u[i].typeGuid == mem[i].typeGuid
    {
      if i < count {
        OriginTwice(mem, t', count, parts, i);
      }
    }
  }

  lemma OriginTwice(mem: seq<Entry>, t: seq<Entry>, count: nat, parts: seq<Str16>, i: nat)
    requires i < count <= |mem| && Clean(mem, count, parts) && SameNames(mem, t)
    ensures Origin(t, count, parts, i) == Origin(mem, count, parts, i)
    ensures Origin(mem, count, parts, Origin(mem, count, parts, i)) == i
  {
    hide Find, HasPrefix, CleanBase, IsSlotName, Partner;
    PairingKept(mem, t, count, i);
    if Paired(mem, count, i) && Occurrences(parts, Base(mem[i].name)) % 2 == 1 {
      ListedBase(parts, Base(mem[i].name));
      PartnerBack(mem, count, Base(mem[i].name), i);
    }
  }

  lemma {:induction false} ListedBase(parts: seq<Str16>, base: Str16)
    requires Occurrences(parts, base) > 0
    ensures exists k :: 0 <= k < |parts| && parts[k] == base
  {
    if parts[0] != base {
      ListedBase(parts[1..], base);
      var k :| 0 <= k < |parts[1..]| && parts[1..][k] == base;
      assert parts[k + 1] == base;
    }
  }

  // ---- tables whose slots come in pairs ----

  /** Entry j's name is entry i's up to the last two characters. */
  predicate SameBase(mem: seq<Entry>, i: nat, j: nat)
    requires i < |mem| && j < |mem|
  {
    |mem[i].name| == |mem[j].name| >= 2 && Base(mem[i].name) == Base(mem[j].name)
  }

  /**
   * Slots come in pairs: where a name shows a slot suffix, no name continues x_a or x_b
   * of its base x and neither is used twice; and beside x_a and x_b there is no third x_?.
   */
  ghost predicate Conventional(mem: seq<Entry>, count: nat)
    requires count <= |mem|
  {
    && (forall i :: 0 <= i < count && Slotted(mem[i].name) && |mem[i].name| >= 2 && Short(Base(mem[i].name)) ==>
         CleanBase(mem, count, Base(mem[i].name)))
    && (forall i, j :: 0 <= i < count && 0 <= j < count && Paired(mem, count, i) && SameBase(mem, i, j) ==>
         IsSlotName(mem[j].name))
  }

  lemma SlottedLength(n: Str16)
    ensures Slotted(n) ==> |n| >= 2
    ensures IsSlotName(n) ==> Slotted(n)
  {
    if IsSlotName(n) {
      assert HasPrefix(n[|n| - 2..], n[|n| - 2..]);
    }
  }

  lemma {:induction false} ListOrigin(mem: seq<Entry>, count: nat, n: nat, k: nat) returns (i: nat)
    requires n <= count <= |mem| && k < |PartsList(mem, count, n)|
    ensures i < n && Listed(mem, count, i) && |mem[i].name| >= 2 && PartsList(mem, count, n)[k] == Base(mem[i].name)
  {
    hide Listed;
    if Listed(mem, count, n - 1) {
      ListedName(mem, count, n - 1);
    }
    if Listed(mem, count, n - 1) && k == 0 {
      i := n - 1;
    } else {
      i := ListOrigin(mem, count, n - 1, if Listed(mem, count, n - 1) then k - 1 else k);
    }
  }

  lemma ListedName(mem: seq<Entry>, count: nat, i: nat)
    requires i < count <= |mem| && Listed(mem, count, i)
    ensures |mem[i].name| >= 2 && Slotted(mem[i].name)
  {
    SlottedLength(mem[i].name);
  }

  lemma ListIsClean(mem: seq<Entry>, count: nat)
    requires count <= |mem| && Conventional(mem, count)
    ensures Clean(mem, count, PartsList(mem, count, count))
  {
    hide CleanBase, Listed, Paired, IsSlotName;
    var parts := PartsList(mem, count, count);
    forall k | 0 <= k < |parts| && Short(parts[k])
      ensures CleanBase(mem, count, parts[k])
    {
      var i := ListOrigin(mem, count, count, k);
      ListedName(mem, count, i);
    }
  }

  /** Of the two slots of a pair the first one makes a node ... */
  lemma FirstListed(mem: seq<Entry>, count: nat, i: nat)
    requires i < count <= |mem| && Paired(mem, count, i) && i < Find(mem, count, Partner(mem[i].name))
    ensures Listed(mem, count, i)
  {
    hide Find;
    var j := Find(mem, count, Partner(mem[i].name));
    SlottedLength(mem[i].name);
    var n, m := mem[i].name, mem[j].name;
    FoundIsPartner(mem, count, i);
    assert n == Base(n) + n[|n| - 2..] && m == Base(n) + OtherSuffix(n[|n| - 2..]);
    assert n[..|n| - 1] == Base(n) + [UNDERSCORE] == m[..|m| - 1];
    assert Siblings(m, n);
  }

  /** ... and no other entry makes a node of that base. */
  lemma OnlyFirstListed(mem: seq<Entry>, count: nat, i: nat, k: nat)
    requires i < count <= |mem| && k < count && Conventional(mem, count) && Paired(mem, count, i)
    requires Listed(mem, count, k) && |mem[k].name| >= 2 && Base(mem[k].name) == Base(mem[i].name)
    ensures k == i || k == Find(mem, count, Partner(mem[i].name))
    ensures var j := Find(mem, count, Partner(mem[i].name)); k <= i || k <= j
    ensures var j := Find(mem, count, Partner(mem[i].name)); (k == i ==> i < j) && (k == j ==> j < i)
  {
    hide Find, CleanBase, IsSlotName, Slotted, Partner;
    var l :| k < l < count && Siblings(mem[l].name, mem[k].name);
    SiblingBase(mem[l].name, mem[k].name);
    SameLength(mem, i, k);
    assert SameBase(mem, i, k) && SameBase(mem, i, l);
    OneOfTheTwo(mem, count, i, k);
    OneOfTheTwo(mem, count, i, l);
  }

  lemma SiblingBase(x: Str16, y: Str16)
    requires Siblings(x, y) && |y| >= 2
    ensures |x| == |y| && Base(x) == Base(y)
  {
    assert x[..|x| - 2] == x[..|x| - 1][..|x| - 2];
    assert y[..|y| - 2] == y[..|y| - 1][..|y| - 2];
  }

  lemma SameLength(mem: seq<Entry>, i: nat, k: nat)
    requires i < |mem| && k < |mem| && |mem[i].name| >= 2 && |mem[k].name| >= 2 && Base(mem[k].name) == Base(mem[i].name)
    ensures SameBase(mem, i, k)
  {
    assert |Base(mem[k].name)| == |mem[k].name| - 2;
  }

  lemma SameOrPartner(n: Str16, m: Str16)
    requires IsSlotName(n) && IsSlotName(m) && Base(n) == Base(m)
    ensures m == n || m == Partner(n)
  {
    assert n == Base(n) + n[|n| - 2..] && m == Base(n) + m[|m| - 2..];
  }

  lemma OneOfTheTwo(mem: seq<Entry>, count: nat, i: nat, k: nat)
    requires i < count <= |mem| && k < count && Conventional(mem, count) && Paired(mem, count, i) && SameBase(mem, i, k)
    ensures k == i || k == Find(mem, count, Partner(mem[i].name))
  {
    hide Find, HasPrefix, Contains;
    assert IsSlotName(mem[k].name);
    SlottedLength(mem[i].name);
    hide CleanBase, Slotted, IsSlotName, Base, Partner;
    SameOrPartner(mem[i].name, mem[k].name);
    CleanUnique(mem, count, Base(mem[i].name), k);
    CleanUnique(mem, count, Base(mem[i].name), i);
  }

  function First(mem: seq<Entry>, count: nat, i: nat): (k: nat)
    requires i < count <= |mem| && Paired(mem, count, i)
    ensures k < count
  {
    var j := Find(mem, count, Partner(mem[i].name));
    if i < j then i else j
  }

  lemma {:induction false} ListedOnce(mem: seq<Entry>, count: nat, i: nat, n: nat)
    requires i < count <= |mem| && n <= count && Conventional(mem, count) && Paired(mem, count, i)
    ensures Occurrences(PartsList(mem, count, n), Base(mem[i].name)) == if First(mem, count, i) < n then 1 else 0
  {
    hide Find, Listed, CleanBase, IsSlotName, Slotted, Conventional, Paired, First;
    if n > 0 {
      ListedOnce(mem, count, i, n - 1);
      FirstMakesNode(mem, count, i);
      if Listed(mem, count, n - 1) {
        ListedName(mem, count, n - 1);
        assert PartsList(mem, count, n)[1..] == PartsList(mem, count, n - 1);
        if Base(mem[n - 1].name) == Base(mem[i].name) {
          OnlyNode(mem, count, i, n - 1);
        }
      }
    }
  }

  lemma FirstMakesNode(mem: seq<Entry>, count: nat, i: nat)
    requires i < count <= |mem| && Conventional(mem, count) && Paired(mem, count, i)
    ensures var k := First(mem, count, i);
      Listed(mem, count, k) && |mem[k].name| >= 2 && Base(mem[k].name) == Base(mem[i].name)
  {
    hide Find, Listed, CleanBase, Slotted, Conventional, IsSlotName, Base, Partner, Paired;
    var j := Find(mem, count, Partner(mem[i].name));
    FoundIsPartner(mem, count, i);
    PartnerOfPartner(mem[i].name);
    PairedIsClean(mem, count, i);
    PartnerBack(mem, count, Base(mem[i].name), i);
    if i < j {
      FirstListed(mem, count, i);
    } else {
      FirstListed(mem, count, j);
    }
  }

  lemma PairedIsClean(mem: seq<Entry>, count: nat, i: nat)
    requires i < count <= |mem| && Conventional(mem, count) && Paired(mem, count, i)
    ensures CleanBase(mem, count, Base(mem[i].name))
  {
    hide Find, CleanBase, Slotted;
    SlottedLength(mem[i].name);
  }

  lemma OnlyNode(mem: seq<Entry>, count: nat, i: nat, k: nat)
    requires i < count <= |mem| && k < count && Conventional(mem, count) && Paired(mem, count, i)
    requires Listed(mem, count, k) && |mem[k].name| >= 2 && Base(mem[k].name) == Base(mem[i].name)
    ensures k == First(mem, count, i)
  {
    hide Find, Listed, CleanBase, Slotted, Conventional, Paired, Partner;
    OnlyFirstListed(mem, count, i, k);
  }

  /** In the table t every type GUID of mem has moved to the other slot of its pair. */
  ghost predicate PairsExchanged(mem: seq<Entry>, count: nat, t: seq<Entry>)
    requires count <= |mem|
  {
    && SameButGuids(mem, t)
    && forall i :: 0 <= i < |mem| ==>
         t[i].typeGuid == if i < count && Paired(mem, count, i) then mem[Find(mem, count, Partner(mem[i].name))].typeGuid
                          else mem[i].typeGuid
  }

  /** Switching exchanges every pair exactly once and fixes every other entry, whatever else the list holds. */
  lemma SwitchExchangesPairs(mem: seq<Entry>, count: nat, s: Str16)
    requires count <= |mem| && Conventional(mem, count) && IsSuffix(s)
    ensures PairsExchanged(mem, count, SwapNodes(mem, count, PartsList(mem, count, count), s))
  {
    hide Find, Listed, CleanBase, IsSlotName, Slotted, Conventional, Paired, First, Partner, SwapNodes, PartsList;
    var parts := PartsList(mem, count, count);
    ListIsClean(mem, count);
    SwapNodesRearranges(mem, count, parts, s);
    forall i | 0 <= i < count
      ensures Origin(mem, count, parts, i) == if Paired(mem, count, i) then Find(mem, count, Partner(mem[i].name)) else i
    {
      if Paired(mem, count, i) {
        ListedOnce(mem, count, i, count);
      }
    }
  }

  /** The table begins with x_a, x_b and x_c, where c is neither a nor b. */
  predicate ThreeSlots(mem: seq<Entry>, base: Str16, c: Char16)
    requires |mem| >= 3
  {
    && c != LETTER_A && c != LETTER_B
    && mem[0].name == base + SUFFIX_A && mem[1].name == base + SUFFIX_B && mem[2].name == base + [UNDERSCORE, c]
  }

  /**
   * The convention is needed: with a third name x_? behind x_a and x_b the base is listed
   * twice, and the pair is exchanged and exchanged back.
   */
  lemma ThirdSlotUndoes(mem: seq<Entry>, base: Str16, c: Char16, s: Str16)
    requires |mem| >= 3 && Short(base) && IsSuffix(s) && ThreeSlots(mem, base, c)
    ensures Paired(mem, 3, 0) && PartsList(mem, 3, 3) == [base, base]
    ensures SameTypes(mem, SwapNodes(mem, 3, PartsList(mem, 3, 3), s))
  {
    ThirdListed(mem, base, c);
    ThirdPaired(mem, base, c);
    ThirdClean(mem, base, c);
    hide ThreeSlots, Clean, IsSlotName, SwapNode, SwapNodes, Paired, PartsList, Partner, Short, IsSuffix, SameButGuids, Guids, SameNames;
    SameNode(mem, 3, base, s);
    var t := SwapNode(mem, 3, base, s);
    SwapNodePermutes(mem, 3, base, s);
    GuidsKeepNames(mem, t);
    SwapNodesTwice(mem, t, 3, [base], s, s);
  }

  /** A base listed twice is passed over twice. */
  lemma SameNode(mem: seq<Entry>, count: nat, base: Str16, s: Str16)
    requires count <= |mem|
    ensures SwapNodes(mem, count, [base], s) == SwapNode(mem, count, base, s)
    ensures SwapNodes(mem, count, [base, base], s) == SwapNodes(SwapNode(mem, count, base, s), count, [base], s)
  {
    hide SwapNode;
    assert [base, base][1..] == [base] && [base][1..] == [];
  }

  lemma ThirdPaired(mem: seq<Entry>, base: Str16, c: Char16)
    requires |mem| >= 3 && Short(base) && ThreeSlots(mem, base, c)
    requires IsSlotName(mem[0].name) && Partner(mem[0].name) == base + SUFFIX_B
    ensures Paired(mem, 3, 0)
  {
    hide IsSlotName, Partner;
  }

  lemma NameSlices(base: Str16, c: Char16)
    ensures var n := base + [UNDERSCORE, c];
      n[..|n| - 1] == base + [UNDERSCORE] && n[..|n| - 2] == base && n[|n| - 2..] == [UNDERSCORE, c]
  {
  }

  predicate BaseIs(n: Str16, base: Str16) {
    |n| >= 2 && n[..|n| - 2] == base
  }

  lemma ThirdSiblings(mem: seq<Entry>, base: Str16, c: Char16)
    requires |mem| >= 3 && ThreeSlots(mem, base, c)
    ensures IsSlotName(mem[0].name) && Partner(mem[0].name) == base + SUFFIX_B
    ensures Slotted(mem[0].name) && Slotted(mem[1].name)
    ensures Siblings(mem[1].name, mem[0].name) && Siblings(mem[2].name, mem[1].name)
    ensures BaseIs(mem[0].name, base) && BaseIs(mem[1].name, base)
  {
    hide Slotted;
    NameSlices(base, LETTER_A);
    NameSlices(base, LETTER_B);
    NameSlices(base, c);
    SlottedLength(mem[0].name);
    SlottedLength(mem[1].name);
  }

  lemma ThirdListed(mem: seq<Entry>, base: Str16, c: Char16)
    requires |mem| >= 3 && ThreeSlots(mem, base, c)
    ensures PartsList(mem, 3, 3) == [base, base]
    ensures IsSlotName(mem[0].name) && Partner(mem[0].name) == base + SUFFIX_B
  {
    ThirdSiblings(mem, base, c);
    ThirdMarks(mem);
    hide *;
    ThirdList(mem, base);
  }

  lemma ThirdList(mem: seq<Entry>, base: Str16)
    requires |mem| >= 3 && Listed(mem, 3, 0) && Listed(mem, 3, 1) && !Listed(mem, 3, 2)
    requires BaseIs(mem[0].name, base) && BaseIs(mem[1].name, base)
    ensures PartsList(mem, 3, 3) == [base, base]
  {
    hide *;
    ListStep(mem, 3, 1, base);
    ListStep(mem, 3, 2, base);
    PartsListStep(mem, 3, 3);
  }

  lemma ListStep(mem: seq<Entry>, count: nat, n: nat, base: Str16)
    requires 0 < n <= count <= |mem| && Listed(mem, count, n - 1) && BaseIs(mem[n - 1].name, base)
    ensures PartsList(mem, count, 0) == []
    ensures PartsList(mem, count, n) == [base] + PartsList(mem, count, n - 1)
  {
    hide Listed;
  }

  lemma ThirdMarks(mem: seq<Entry>)
    requires |mem| >= 3 && Slotted(mem[0].name) && Slotted(mem[1].name)
    requires Siblings(mem[1].name, mem[0].name) && Siblings(mem[2].name, mem[1].name)
    ensures Listed(mem, 3, 0) && Listed(mem, 3, 1) && !Listed(mem, 3, 2)
  {
    hide Slotted, Siblings;
  }

  lemma PartsListStep(mem: seq<Entry>, count: nat, n: nat)
    requires 0 < n <= count <= |mem|
    ensures PartsList(mem, count, 0) == []
    ensures Listed(mem, count, n - 1) && |mem[n - 1].name| >= 2 ==>
      PartsList(mem, count, n) == [mem[n - 1].name[..|mem[n - 1].name| - 2]] + PartsList(mem, count, n - 1)
    ensures !Listed(mem, count, n - 1) ==> PartsList(mem, count, n) == PartsList(mem, count, n - 1)
  {
    hide Listed;
  }

  lemma ThirdClean(mem: seq<Entry>, base: Str16, c: Char16)
    requires |mem| >= 3 && ThreeSlots(mem, base, c)
    ensures Clean(mem, 3, [base])
  {
    assert forall i :: 0 <= i < 3 ==> |mem[i].name| == |base| + 2;
    assert mem[0].name[|base| + 1] == LETTER_A && mem[1].name[|base| + 1] == LETTER_B && mem[2].name[|base| + 1] == c;
  }
}
