/** The 32-bit word of `OperationGate` (src/operation_gate.h:38-90): the top bit says "retiring", the
    other bits count admitted operations.
 */
module GateWord {

  const RETIRING: nat := 0x8000_0000
  const ACTIVE_MASK: nat := RETIRING - 1

  function Count(word: nat): nat { word % RETIRING }

  predicate Retired(word: nat) { word / RETIRING % 2 == 1 }

  /** `TryEnter` may attempt its exchange on this word. */
  predicate Admits(word: nat) { !Retired(word) && Count(word) != ACTIVE_MASK }

  /** fetch_sub(1) on 32 bits. */
  function Decremented(word: nat): nat { (word + 2 * RETIRING - 1) % (2 * RETIRING) }

  /** fetch_or(kRetiring). */
  function WithRetiring(word: nat): nat { if Retired(word) then word else word + RETIRING }

  /** The word as a number: no carry into, and no borrow from, the retiring bit. */
  lemma WordArithmetic(word: nat)
    requires word < 2 * RETIRING
    ensures Retired(word) <==> word >= RETIRING
    ensures word == Count(word) + (if Retired(word) then RETIRING else 0)
    ensures Admits(word) ==> word + 1 < RETIRING && Count(word + 1) == Count(word) + 1 && !Retired(word + 1)
    ensures Count(word) > 0 ==> Decremented(word) == word - 1 && Count(word - 1) == Count(word) - 1
                                && Retired(word - 1) == Retired(word)
    ensures Retired(WithRetiring(word)) && Count(WithRetiring(word)) == Count(word) && WithRetiring(word) < 2 * RETIRING
  {
  }
}
