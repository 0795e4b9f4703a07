/** What the slot engine's changes of an attribute word mean for its fields. */
module SlotBits {
  import opened Bits64
  import opened SlotTypes
  import opened SlotSpec

  // ---- setting and clearing fields ----

  /** The fields of a word after the bits m have been set, for a mask m of whole fields. */
  lemma FieldsOfWith(a: bv64, m: bv64)
    ensures var b := With(a, m);
      && (m & PRIORITY_VAL == 0 ==> Priority(b) == Priority(a)) && (m & PRIORITY_VAL == PRIORITY_VAL ==> Priority(b) == 3)
      && (m & ACTIVE_VAL == 0 ==> Active(b) == Active(a)) && (m & ACTIVE_VAL == ACTIVE_VAL ==> Active(b))
      && (m & MAX_RETRY_COUNT_VAL == 0 ==> FullRetry(b) == FullRetry(a))
      && (m & MAX_RETRY_COUNT_VAL == MAX_RETRY_COUNT_VAL ==> FullRetry(b))
      && (m & SUCCESSFUL_VAL == 0 ==> Successful(b) == Successful(a)) && (m & SUCCESSFUL_VAL == SUCCESSFUL_VAL ==> Successful(b))
      && (m & UNBOOTABLE_VAL == 0 ==> Unbootable(b) == Unbootable(a))
      && (m & !SLOT_BITS == 0 ==> OtherBits(b) == OtherBits(a))
  {
    hide With, Field;
    FieldOfWith(a, m, PRIORITY_VAL);
    FieldOfWith(a, m, ACTIVE_VAL);
    FieldOfWith(a, m, MAX_RETRY_COUNT_VAL);
    FieldOfWith(a, m, SUCCESSFUL_VAL);
    FieldOfWith(a, m, UNBOOTABLE_VAL);
    FieldOfWith(a, m, !SLOT_BITS);
  }

  /** The fields of a word after the bits m have been cleared. */
  lemma FieldsOfWithout(a: bv64, m: bv64)
    ensures var b := Without(a, m);
      && (m & PRIORITY_VAL == 0 ==> Priority(b) == Priority(a)) && (m & PRIORITY_VAL == PRIORITY_VAL ==> Priority(b) == 0)
      && (m & ACTIVE_VAL == 0 ==> Active(b) == Active(a)) && (m & ACTIVE_VAL == ACTIVE_VAL ==> !Active(b))
      && (m & MAX_RETRY_COUNT_VAL == 0 ==> FullRetry(b) == FullRetry(a))
      && (m & SUCCESSFUL_VAL == 0 ==> Successful(b) == Successful(a)) && (m & SUCCESSFUL_VAL == SUCCESSFUL_VAL ==> !Successful(b))
      && (m & UNBOOTABLE_VAL == 0 ==> Unbootable(b) == Unbootable(a)) && (m & UNBOOTABLE_VAL == UNBOOTABLE_VAL ==> !Unbootable(b))
      && (m & !SLOT_BITS == 0 ==> OtherBits(b) == OtherBits(a))
  {
    hide Without, Field;
    FieldOfWithout(a, m, PRIORITY_VAL);
    FieldOfWithout(a, m, ACTIVE_VAL);
    FieldOfWithout(a, m, MAX_RETRY_COUNT_VAL);
    FieldOfWithout(a, m, SUCCESSFUL_VAL);
    FieldOfWithout(a, m, UNBOOTABLE_VAL);
    FieldOfWithout(a, m, !SLOT_BITS);
  }

  // ---- the engine's changes ----

  lemma ClearedBits(a: bv64)
    ensures var b := ClearedUnbootable(a);
      && !Unbootable(b) && Active(b) == Active(a) && Priority(b) == Priority(a) && FullRetry(b)
      && Successful(b) == Successful(a) && OtherBits(b) == OtherBits(a)
  {
    hide With, Without, Field, Priority, Active, Successful, Unbootable, FullRetry, OtherBits;
    FieldsOfWithout(a, UNBOOTABLE_VAL);
    FieldsOfWith(Without(a, UNBOOTABLE_VAL), MAX_RETRY_COUNT_VAL);
  }

  lemma FirstBootBits(a: bv64)
    ensures var b := FirstBoot(a);
      && !Unbootable(b) && Active(b) && Priority(b) == 3 && !Successful(b) && FullRetry(b) && OtherBits(b) == OtherBits(a)
  {
    hide With, Without, Field, Priority, Active, Successful, Unbootable, FullRetry, OtherBits;
    FieldsOfWithout(a, SUCCESSFUL_VAL | UNBOOTABLE_VAL);
    FieldsOfWith(Without(a, SUCCESSFUL_VAL | UNBOOTABLE_VAL), PRIORITY_VAL | ACTIVE_VAL | MAX_RETRY_COUNT_VAL);
  }

  lemma ActivatedBits(a: bv64, resetSuccess: bool, setSuccess: bool)
    ensures var b := Activated(a, resetSuccess, setSuccess);
      && !Unbootable(b) && Active(b) && Priority(b) == 3 && FullRetry(b) && OtherBits(b) == OtherBits(a)
      && Successful(b) == (setSuccess || (Successful(a) && !resetSuccess))
  {
    hide With, Without, Field, Priority, Active, Successful, Unbootable, FullRetry, OtherBits;
    var w := With(a, PRIORITY_VAL | ACTIVE_VAL | MAX_RETRY_COUNT_VAL);
    FieldsOfWith(a, PRIORITY_VAL | ACTIVE_VAL | MAX_RETRY_COUNT_VAL);
    FieldsOfWithout(w, UNBOOTABLE_VAL);
    var b := Without(w, UNBOOTABLE_VAL);
    FieldsOfWithout(b, SUCCESSFUL_VAL);
    var c := if resetSuccess && Successful(b) then Without(b, SUCCESSFUL_VAL) else b;
    FieldsOfWith(c, SUCCESSFUL_VAL);
  }

  lemma SecondPriority(a: bv64)
    ensures Priority(a) == 0 ==> Priority(With(a, SECOND_PRIORITY)) == 2
  {
    PriorityZero(a);
    assert Field(SECOND_PRIORITY, PRIORITY_VAL) == SECOND_PRIORITY;
    hide With, Field;
    Distribute(a, SECOND_PRIORITY, PRIORITY_VAL);
    Absorb(SECOND_PRIORITY, 0);
  }

  lemma PriorityZero(a: bv64)
    ensures Priority(a) == 0 <==> Field(a, PRIORITY_VAL) == 0
  {
  }

  lemma DemotedBits(a: bv64)
    ensures var b := Demoted(a);
      && !Active(b) && Priority(b) == 2 && OtherBits(b) == OtherBits(a) && FullRetry(b) == FullRetry(a)
      && Unbootable(b) == Unbootable(a) && Successful(b) == Successful(a)
  {
    hide With, Without, Field, Priority, Active, Successful, Unbootable, FullRetry, OtherBits;
    FieldsOfWithout(a, PRIORITY_VAL | ACTIVE_VAL);
    FieldsOfWith(Without(a, PRIORITY_VAL | ACTIVE_VAL), SECOND_PRIORITY);
    SecondPriority(Without(a, PRIORITY_VAL | ACTIVE_VAL));
  }

  lemma MarkedBits(a: bv64, active: bool)
    ensures var b := Marked(a, active);
      && Active(b) == active && Priority(b) == Priority(a) && OtherBits(b) == OtherBits(a)
      && Unbootable(b) == Unbootable(a) && Successful(b) == Successful(a) && FullRetry(b) == FullRetry(a)
  {
    hide With, Without, Field, Priority, Active, Successful, Unbootable, FullRetry, OtherBits;
    FieldsOfWith(a, ACTIVE_VAL);
    FieldsOfWithout(a, ACTIVE_VAL);
  }

  // ---- changes that change nothing ----

  /** Clearing a slot that is clear, with all its retries, changes nothing. */
  lemma ClearedAgain(a: bv64)
    requires !Unbootable(a) && FullRetry(a)
    ensures ClearedUnbootable(a) == a
  {
    hide With, Without, Field;
    WithNothing(a, UNBOOTABLE_VAL);
    WithNothing(a, MAX_RETRY_COUNT_VAL);
  }

  lemma ClearTwice(a: bv64, m: bv64, n: bv64)
    requires Field(m, n) == m
    ensures Without(With(Without(a, n), m), n) == Without(a, n)
  {
    hide With, Without, Field;
    Clear(a, n);
    Clear(With(Without(a, n), m), n);
    Distribute(Without(a, n), m, !n);
    FieldTwice(a, !n);
    FieldIs(m, n);
    FieldIs(m, !n);
    ClearPart(m, n);
    Absorb(Field(a, !n), 0);
  }

  /** Demoting twice is demoting once. */
  lemma DemotedAgain(a: bv64)
    ensures Demoted(Demoted(a)) == Demoted(a)
  {
    assert Field(SECOND_PRIORITY, PRIORITY_VAL | ACTIVE_VAL) == SECOND_PRIORITY;
    hide With, Without;
    ClearTwice(a, SECOND_PRIORITY, PRIORITY_VAL | ACTIVE_VAL);
  }

  lemma FullFields(a: bv64)
    ensures Priority(a) == 3 && Active(a) && FullRetry(a) ==>
      Field(a, PRIORITY_VAL | ACTIVE_VAL | MAX_RETRY_COUNT_VAL) == PRIORITY_VAL | ACTIVE_VAL | MAX_RETRY_COUNT_VAL
  {
  }

  /** Activating a successful active slot with all its retries changes nothing. */
  lemma ActivatedAgain(a: bv64)
    requires Priority(a) == 3 && Active(a) && FullRetry(a) && Successful(a) && !Unbootable(a)
    ensures Activated(a, false, true) == a
  {
    FullFields(a);
    hide With, Without, Field;
    WithNothing(a, PRIORITY_VAL | ACTIVE_VAL | MAX_RETRY_COUNT_VAL);
    WithNothing(a, UNBOOTABLE_VAL);
  }
}
