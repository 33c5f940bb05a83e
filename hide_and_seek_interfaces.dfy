/** Defaults of the full game's abstract Card and Question classes. */
module Interfaces {

  /** Seconds a seeker is given to answer a question unless its family overrides it. The
      value is read from hide_and_seek.cfg, which is not part of this model; no proof here
      depends on it. */
  const DEFAULT_ALLOCATED_QUESTION_TIME: nat := 300

  /** A card of the full (non-lite) game. Only what every such card inherits is modelled;
      the full game's concrete cards are not part of this model. */
  datatype Card = Card(name: string)

  /** `Card.get_time_bonus`: a card that does not override it is worth no seconds. */
  function TimeBonus(c: Card): (seconds: int)
  {
    0
  }

  /** `Card._playable`: a card that does not override it is always playable. */
  predicate Playable(c: Card)
  {
    true
  }

  lemma CardDefaults(c: Card)
    ensures TimeBonus(c) == 0
    ensures Playable(c)
  {
  }

  /** `Question.__eq__`: two questions are equal when `str()` renders them identically. The
      questions define no `__str__`, so `str()` is Python's default object rendering, which
      depends on the object; the rendering is therefore a parameter here. */
  predicate Equals<Q>(render: Q -> string, a: Q, b: Q)
  {
    render(a) == render(b)
  }

  lemma EqualsIsEquivalence<Q>(render: Q -> string, a: Q, b: Q, c: Q)
    ensures Equals(render, a, a)
    ensures Equals(render, a, b) <==> Equals(render, b, a)
    ensures Equals(render, a, b) && Equals(render, b, c) ==> Equals(render, a, c)
  {
  }
}
