/**
 * The facings a ship can be given (Compass.java). Each facing carries the single
 * character it is written with; West is written 'o' (Oeste), not 'w'.
 */
module Directions {

  datatype Compass = North | South | East | West | Unknown {

    /**
     * The character the facing was declared with; parsing it gives the facing
     * back, Unknown included, since 'u' falls into the parser's default case.
     */
    function Direction(): (c: char)
      ensures CharToCompass(c) == this
      ensures c in {'n', 's', 'e', 'o', 'u'}
    {
      match this
      case North => 'n'
      case South => 's'
      case East => 'e'
      case West => 'o'
      case Unknown => 'u'
    }
  }

  /** Parses one character into a facing; any character that is not a facing gives Unknown. */
  function CharToCompass(ch: char): (d: Compass)
    ensures d == North <==> ch == 'n'
    ensures d == South <==> ch == 's'
    ensures d == East <==> ch == 'e'
    ensures d == West <==> ch == 'o'
    ensures d == Unknown <==> ch !in {'n', 's', 'e', 'o'}
  {
    match ch
    case 'n' => North
    case 's' => South
    case 'e' => East
    case 'o' => West
    case _ => Unknown
  }

  /** Distinct facings are written with distinct characters. */
  lemma DirectionInjective(d: Compass, e: Compass)
    requires d.Direction() == e.Direction()
    ensures d == e
  {
  }
}
