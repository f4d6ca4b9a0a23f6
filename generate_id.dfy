/**
  The patient identifier generator of src/utils/generateId.js. It computes a
  base-36 timestamp and a random suffix and then returns the bare prefix, so
  the identifier is one fixed string. The clock reading and the random
  number are parameters here; the generator ignores both.
 */
module PatientIdGenerator {

  /** The identifier prefix, which is also the whole identifier. */
  const Prefix: string := "P00122"

  /** generatePatientId: `nowMillis` stands for Date.now() and `random` for
      Math.random(), both evaluated by the source and never used. */
  function GeneratePatientId(nowMillis: int, random: real): (id: string)
    ensures |id| == 6 && id[0] == 'P'
    ensures forall i :: 1 <= i < |id| ==> '0' <= id[i] <= '9'
  {
    Prefix
  }

  /** The identifier does not depend on the clock or on randomness, so two
      calls always agree and no uniqueness is provided. */
  lemma IdIgnoresClockAndRandom(t1: int, r1: real, t2: int, r2: real)
    ensures GeneratePatientId(t1, r1) == GeneratePatientId(t2, r2) == "P00122"
  {
  }

  /** The identifier is never empty, so it is truthy in JavaScript. */
  lemma IdIsNonEmpty(nowMillis: int, random: real)
    ensures GeneratePatientId(nowMillis, random) != ""
  {
  }
}
