/** The state word shared by every spin lock: two abstract values and the
    compare-and-swap that acquires it. */
module LockWord {

  /** The only two values the atomic word ever holds. */
  datatype Word = Unlocked | Locked

  /** What one compare-and-swap from Unlocked to Locked leaves behind. */
  datatype Cas = Cas(word: Word, swapped: bool)

  /** CompareAndSwap(unlocked, locked): swaps exactly when the word is free and
      leaves the word held either way. */
  function CompareAndSwap(w: Word): (r: Cas)
    ensures r.swapped <==> w == Unlocked
    ensures r.word == Locked
    ensures !r.swapped ==> r.word == w
  {
    match w
    case Unlocked => Cas(Locked, true)
    case Locked => Cas(w, false)
  }

  /** A second acquire without an intervening store of Unlocked cannot succeed:
      the primitive is not reentrant. */
  lemma NotReentrant(w: Word)
    ensures !CompareAndSwap(CompareAndSwap(w).word).swapped
  {
  }
}
