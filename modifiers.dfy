/**
 * The `Modifiers` bit set of `src/terminal/layouts/mod.rs`: one bit of a `u8` per modifier
 * key or lock, and the predicates the layouts query.
 */
module KeyModifiers {

  /** `Modifiers`, a `u8` of flags. */
  type Modifiers = bv8

  const LEFT_CONTROL: Modifiers := 0x01
  const RIGHT_CONTROL: Modifiers := 0x02
  const LEFT_SHIFT: Modifiers := 0x04
  const RIGHT_SHIFT: Modifiers := 0x08
  const CAPS_LOCK: Modifiers := 0x10
  const LEFT_ALT: Modifiers := 0x20
  const RIGHT_ALT: Modifiers := 0x40
  const NUM_LOCK: Modifiers := 0x80

  /** `Modifiers::empty()`. */
  const EMPTY: Modifiers := 0

  /** `intersects`: the two sets share a flag. */
  predicate Intersects(m: Modifiers, other: Modifiers) {
    m & other != 0
  }

  /** `has_shift`: a shift key is held. CAPS LOCK is not considered. */
  predicate HasShift(m: Modifiers) {
    Intersects(m, LEFT_SHIFT | RIGHT_SHIFT)
  }

  /** `shifted`: a shift key is held or CAPS LOCK is on, but not both. */
  predicate Shifted(m: Modifiers) {
    HasShift(m) != Intersects(m, CAPS_LOCK)
  }

  /** `has_control`. */
  predicate HasControl(m: Modifiers) {
    Intersects(m, LEFT_CONTROL | RIGHT_CONTROL)
  }

  /** `has_alt`. */
  predicate HasAlt(m: Modifiers) {
    Intersects(m, LEFT_ALT | RIGHT_ALT)
  }

  /** `num_locked`. */
  predicate NumLocked(m: Modifiers) {
    Intersects(m, NUM_LOCK)
  }

  /** The eight flags are the eight bits of the byte, one each. */
  lemma FlagsAreTheEightBits()
    ensures [LEFT_CONTROL, RIGHT_CONTROL, LEFT_SHIFT, RIGHT_SHIFT, CAPS_LOCK, LEFT_ALT, RIGHT_ALT, NUM_LOCK]
         == [1 << 0, 1 << 1, 1 << 2, 1 << 3, 1 << 4, 1 << 5, 1 << 6, 1 << 7]
    ensures LEFT_CONTROL | RIGHT_CONTROL | LEFT_SHIFT | RIGHT_SHIFT | CAPS_LOCK | LEFT_ALT | RIGHT_ALT | NUM_LOCK == 0xFF
  {
  }

  /**
   * Each predicate reads exactly its own bits: either key of a pair suffices, CAPS LOCK
   * inverts the shift state, and NUM LOCK is bit 7.
   */
  lemma PredicatesReadTheirBits(m: Modifiers)
    ensures HasShift(m) <==> m & LEFT_SHIFT != 0 || m & RIGHT_SHIFT != 0
    ensures HasControl(m) <==> m & LEFT_CONTROL != 0 || m & RIGHT_CONTROL != 0
    ensures HasAlt(m) <==> m & LEFT_ALT != 0 || m & RIGHT_ALT != 0
    ensures Shifted(m) <==> (HasShift(m) <==> m & CAPS_LOCK == 0)
    ensures NumLocked(m) <==> m >> 7 == 1
  {
  }

  /** Toggling CAPS LOCK inverts `shifted` and leaves the other predicates alone. */
  lemma CapsLockInvertsShifted(m: Modifiers)
    ensures Shifted(m ^ CAPS_LOCK) == !Shifted(m)
    ensures HasShift(m ^ CAPS_LOCK) == HasShift(m) && NumLocked(m ^ CAPS_LOCK) == NumLocked(m)
  {
  }
}
