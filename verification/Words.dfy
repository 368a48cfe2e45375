/**
 Machine words as the set of positions of their one bits: AND is intersection, OR is
 union, AND NOT is difference, and zero is the empty set.
 */
module Words {
  type Word = set<nat>

  /** The mask with bits lo..hi-1 set. */
  function Bits(lo: nat, hi: nat): (r: Word)
    ensures forall i: nat :: i in r <==> lo <= i < hi
    decreases hi
  {
    if hi <= lo then {} else Bits(lo, hi - 1) + {hi - 1}
  }

  /** w >> k in a 32-bit word. */
  function Shr(w: Word, k: nat): (r: Word)
    ensures forall i: nat :: i in r <==> i < 32 && i + k in w
  {
    set i | i in Bits(0, 32) && i + k in w
  }

  /** w << k in a 32-bit word: bits shifted past its end are lost. */
  function Shl(w: Word, k: nat): (r: Word)
    ensures forall i: nat :: i in r <==> k <= i < 32 && i - k in w
  {
    set i | i in Bits(0, 32) && i >= k && i - k in w
  }

  /** The four-bit number n, and the number in the low four bits of a word. */
  function Nibble(n: nat): Word
    requires n < 16
  {
    (if n % 2 == 1 then {0} else {}) + (if n / 2 % 2 == 1 then {1} else {}) +
    (if n / 4 % 2 == 1 then {2} else {}) + (if n / 8 == 1 then {3} else {})
  }

  function LowNibble(w: Word): (n: nat)
    ensures n < 16
  {
    (if 0 in w then 1 else 0) + (if 1 in w then 2 else 0) + (if 2 in w then 4 else 0) + (if 3 in w then 8 else 0)
  }

  lemma NibbleValue(n: nat)
    requires n < 16
    ensures LowNibble(Nibble(n)) == n && Nibble(n) <= Bits(0, 4)
  {
  }

  // Identifier words (linux/can.h): 29 identifier bits and three flags.
  const ERR_BIT: nat := 29   // error frame; in a filter's can_id: inverted filter
  const RTR_BIT: nat := 30   // remote frame
  const EFF_BIT: nat := 31   // 29-bit identifier

  function SffMask(): Word { Bits(0, 11) }

  function EffMask(): Word { Bits(0, 29) }
}
