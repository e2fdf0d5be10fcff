/** The flag words that compilers pass to _Block_object_assign and _Block_object_dispose. */
module BlockFlags {
  const IS_OBJECT: bv32 := 3
  const IS_BLOCK: bv32 := 7
  const IS_BYREF: bv32 := 8
  const IS_WEAK: bv32 := 16
  const BYREF_CALLER: bv32 := 128

  /** What one call does to the reference counts. */
  datatype Effect = Nothing | OfObject | OfBlock | OfByref

  function Assign(flags: bv32): Effect {
    if flags & BYREF_CALLER == BYREF_CALLER then Nothing
    else if flags & IS_BYREF == IS_BYREF then OfByref
    else if flags & IS_BLOCK == IS_BLOCK then OfBlock
    else if flags & IS_OBJECT == IS_OBJECT then OfObject
    else Nothing
  }

  function Dispose(flags: bv32): Effect {
    if flags & IS_BYREF != 0 then OfByref
    else if flags & (IS_BLOCK | BYREF_CALLER) == IS_BLOCK then OfBlock
    else if flags & (IS_WEAK | IS_BLOCK | BYREF_CALLER) == IS_OBJECT then OfObject
    else Nothing
  }

  /**
   * Dispose undoes what assign did, except for two families of flag words: a variable marked as called
   * from a __block helper, which is released but was not retained, and a weak object outside such a
   * helper, which is retained but not released.
   */
  lemma DisposeUndoesAssign(flags: bv32)
    ensures Assign(flags) == Dispose(flags) <==>
              && flags & (IS_BYREF | BYREF_CALLER) != IS_BYREF | BYREF_CALLER
              && flags & (IS_OBJECT | 4 | IS_BYREF | IS_WEAK | BYREF_CALLER) != IS_OBJECT | IS_WEAK
  {
  }

  /** Compilers pass eight flag words; for all of them dispose undoes assign. */
  lemma DocumentedFlags(flags: bv32)
    requires flags in {3, 7, 8, 8 | 16, 128 | 3, 128 | 3 | 16, 128 | 7, 128 | 7 | 16}
    ensures Assign(flags) == Dispose(flags)
    ensures Assign(flags) == if flags == 3 then OfObject else if flags == 7 then OfBlock
                             else if flags in {8, 24} then OfByref else Nothing
  {
  }
}
