/** Fixed game configuration (class attributes of the MasterMind game) and a
    small Option type for the operations that can reject their input. */
module Base {

  /** Number of symbols in a code. */
  const CodeLength: nat := 4

  /** Largest digit a code may contain. */
  const MaxDigit: nat := 9

  /** Initial value of the per-round guess counter. */
  const GuessesPerRound: nat := 12

  /** Largest inning count the tournament prompt accepts. */
  const MaxInnings: int := 10

  datatype Option<T> = None | Some(value: T)
}
