/** The words of a Lisp heap as the copying collector sees them, and the entries of hash tables. */
module HeapWords {

  /** A word is an immediate, or a pointer to the space being collected, to the space copied
      to, or to a space that is not collected. */
  datatype Word = Imm(n: int) | Static(addr: nat) | From(addr: nat) | New(addr: nat)

  datatype Pair = Pair(key: Word, value: Word)

  /** The marker left in both halves of a culled entry. */
  const Empty: Word := Imm(-1)

  const EmptyPair: Pair := Pair(Empty, Empty)
}
