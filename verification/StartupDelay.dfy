/** The start-up interlock: a fault held until a number of triggers has passed since the key turn. */
module StartupDelay {
  import opened Words

  datatype Regs = Regs(count: Word32, enabled: bool, fault: bool, keyLast: bool)

  predicate KeyEdge(r: Regs, key: bool) { key && !r.keyLast }

  /** One clock edge; where a key edge and a counted trigger coincide, the trigger's assignment wins. */
  function Next(r: Regs, reset: bool, trig: bool, key: bool, delay: Word32): Regs {
    var counted := trig && r.enabled;
    var edge := KeyEdge(r, key);
    if reset then Regs(0, false, true, r.keyLast)
    else Regs(
      count := if counted && r.count > 0 then r.count - 1 else if edge then delay else r.count,
      enabled := !(counted && r.count == 0) && (edge || r.enabled),
      fault := !(counted && r.count == 0) && (edge || r.fault),
      keyLast := key)
  }

  class Entity {
    var count: Word32
    var enabled: bool
    var fault: bool
    var keyLast: bool

    ghost function View(): Regs
      reads this
    {
      Regs(count, enabled, fault, keyLast)
    }

    method Clock(reset: bool, trig: bool, key: bool, delay: Word32)
      modifies this
      ensures View() == Next(old(View()), reset, trig, key, delay)
    {
      var wasCount, wasEnabled, wasKey := count, enabled, keyLast;
      if reset {
        count, fault, enabled := 0, true, false;
      } else {
        keyLast := key;
        if key && !wasKey {
          enabled, fault, count := true, true, delay;
        }
        if trig && wasEnabled {
          if wasCount == 0 {
            fault, enabled := false, false;
          } else {
            count := wasCount - 1;
          }
        }
      }
    }
  }

  /** The countdown has been loaded in full and the fault is up. */
  predicate Armed(r: Regs, delay: Word32) { r.count == delay && r.enabled && r.fault }

  /**
   * A key turn arms the countdown exactly when it does not fall on a trigger that a running countdown
   * counts, or when that countdown, left from a longer delay, happens to stand one above the new one.
   */
  lemma KeyTurnArms(r: Regs, trig: bool, delay: Word32)
    requires !r.keyLast
    ensures Armed(Next(r, false, trig, true, delay), delay) <==> !(trig && r.enabled) || r.count == delay + 1
  {
  }

  /** In the case shut out, a spent countdown even drops the fault on the very clock of the key turn. */
  lemma KeyTurnCanClear(delay: Word32)
    ensures var r := Regs(0, true, true, false);
            KeyEdge(r, true) && !Next(r, false, true, true, delay).fault
  {
  }

  // ----- from reset on -----

  datatype Input = Input(reset: bool, trig: bool, key: bool, delay: Word32)

  function Run(r: Regs, ins: seq<Input>, k: nat): Regs
    requires k <= |ins|
  {
    if k == 0 then r
    else
      var i := ins[k - 1];
      Next(Run(r, ins, k - 1), i.reset, i.trig, i.key, i.delay)
  }

  /** The key as it stood on the newest clock before k that was not in reset. */
  function KeySeen(r: Regs, ins: seq<Input>, k: nat): bool
    requires k <= |ins|
  {
    if k == 0 then r.keyLast else if ins[k - 1].reset then KeySeen(r, ins, k - 1) else ins[k - 1].key
  }

  /** The key is seen to turn on clock k: it is on, and it was off when last seen; in reset it is not looked at. */
  predicate KeyTurns(r: Regs, ins: seq<Input>, k: nat)
    requires k < |ins|
  {
    !ins[k].reset && ins[k].key && !KeySeen(r, ins, k)
  }

  lemma {:induction false} KeyLastIsSeen(r: Regs, ins: seq<Input>, k: nat)
    requires k <= |ins|
    ensures Run(r, ins, k).keyLast == KeySeen(r, ins, k)
  {
    if k > 0 {
      KeyLastIsSeen(r, ins, k - 1);
    }
  }

  /**
   * From any registers, after a clock in reset the fault stands on every later clock until the key is
   * first seen to turn, whatever triggers and delays come, and the countdown stands idle at zero.
   */
  lemma {:induction false} FaultUntilKeyTurns(r: Regs, ins: seq<Input>, j: nat, k: nat)
    requires j < k <= |ins| && ins[j].reset && forall m :: j < m < k ==> !KeyTurns(r, ins, m)
    ensures Run(r, ins, k).fault && !Run(r, ins, k).enabled && Run(r, ins, k).count == 0
  {
    if k > j + 1 {
      FaultUntilKeyTurns(r, ins, j, k - 1);
      KeyLastIsSeen(r, ins, k - 1);
      assert !KeyTurns(r, ins, k - 1);
    }
  }
}
