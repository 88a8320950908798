/** `scoreClass` of src/utils/score.ts: the CSS class that colours a score. */
module Score {

  const Good: string := "score-good"
  const Warn: string := "score-warn"
  const Low: string := "score-low"

  /** The class of a score: good from 85 up, warn from 70 up to 85, low
      below 70. Both thresholds are inclusive. JavaScript numbers are read as
      reals here, so fractional scores fall into the band they belong to. */
  function ScoreClass(score: real): (cls: string)
    ensures cls == Good <==> score >= 85.0
    ensures cls == Warn <==> 70.0 <= score < 85.0
    ensures cls == Low <==> score < 70.0
  {
    if score >= 85.0 then Good
    else if score >= 70.0 then Warn
    else Low
  }

  /** How good a class is: low < warn < good. */
  function Rank(cls: string): nat {
    if cls == Good then 2 else if cls == Warn then 1 else 0
  }

  /** The three classes are the only results. */
  lemma ScoreClassTotal(score: real)
    ensures ScoreClass(score) in {Good, Warn, Low}
  {
  }

  /** A higher score never gets a worse class. */
  lemma ScoreClassMonotone(a: real, b: real)
    requires a <= b
    ensures Rank(ScoreClass(a)) <= Rank(ScoreClass(b))
  {
  }
}
