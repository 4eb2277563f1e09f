/** Severity levels: their order and the one-letter prefix written into each record. */
module LogLevels {

  datatype Level = Debug | Info | Notice | Warning | Error {

    /** The ordinal of the level in the enumeration, which is what `<` compares. */
    function Rank(): nat
    {
      match this
      case Debug => 0
      case Info => 1
      case Notice => 2
      case Warning => 3
      case Error => 4
    }

    /** The entry of the prefix table for this level. */
    function Prefix(): string
    {
      match this
      case Debug => "D"
      case Info => "I"
      case Notice => "N"
      case Warning => "W"
      case Error => "E"
    }
  }

  /** `a < b` on levels. */
  predicate Below(a: Level, b: Level)
  {
    a.Rank() < b.Rank()
  }

  /** The five levels in increasing order. */
  const AllLevels: seq<Level> := [Debug, Info, Notice, Warning, Error]

  /** The levels are ranked 0 to 4 in declaration order, so `Below` orders them as declared. */
  lemma RanksFollowDeclaration()
    ensures forall i :: 0 <= i < |AllLevels| ==> AllLevels[i].Rank() == i
    ensures forall l: Level :: l in AllLevels
  {
    forall l: Level ensures l in AllLevels {
      match l
      case Debug => assert AllLevels[0] == l;
      case Info => assert AllLevels[1] == l;
      case Notice => assert AllLevels[2] == l;
      case Warning => assert AllLevels[3] == l;
      case Error => assert AllLevels[4] == l;
    }
  }

  /** `Below` is a strict total order on levels. */
  lemma BelowIsStrictTotalOrder(a: Level, b: Level, c: Level)
    ensures !Below(a, a)
    ensures Below(a, b) && Below(b, c) ==> Below(a, c)
    ensures a == b || Below(a, b) || Below(b, a)
  {
  }

  /** Every prefix is a single character, and distinct levels have distinct prefixes. */
  lemma PrefixIsOneDistinctLetter(a: Level, b: Level)
    ensures |a.Prefix()| == 1
    ensures a != b ==> a.Prefix() != b.Prefix()
  {
  }
}
