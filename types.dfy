/** The value types of the style parser: lengths, length-or-percentage, the flexible
    (basis, grow, shrink) triple and the layout enums, with the equality operators the
    source defines on them by case analysis. */
module Types {
  import opened Wrappers

  /** A length with its unit: pixels, multiples of the current font size, or multiples of the
      root (default) font size. */
  datatype Length = Px(value: real) | Em(value: real) | Rem(value: real)

  /** The unit tag of a Length, used to state what its equality compares. */
  datatype Unit = PxUnit | EmUnit | RemUnit

  function UnitOf(l: Length): Unit {
    match l
    case Px(_) => PxUnit
    case Em(_) => EmUnit
    case Rem(_) => RemUnit
  }

  /** `std::variant<Length, Percentage>`. */
  datatype LengthPercentage = Len(length: Length) | Percent(percent: real)

  /** `std::tuple<std::optional<LengthPercentage>, float, float>`: component 0 is the basis
      (None means automatic), 1 the grow weight and 2 the shrink weight. */
  datatype LayoutLength = LayoutLength(basis: Option<LengthPercentage>, grow: real, shrink: real)

  datatype Position = Static | Absolute

  datatype Direction = Horizontal | Vertical

  datatype Alignment = Start | Center | End | Stretch | Baseline

  datatype Justification = SpaceBetween | SpaceAround | Start | Center | End

  /** `operator==(Length, Length)`: equal only for the same alternative with equal values. */
  function LengthEquals(l: Length, r: Length): (b: bool)
    ensures b <==> UnitOf(l) == UnitOf(r) && l.value == r.value
    ensures b <==> l == r
  {
    if l.Px? && r.Px? then l.value == r.value
    else if l.Em? && r.Em? then l.value == r.value
    else if l.Rem? && r.Rem? then l.value == r.value
    else false
  }

  /** `operator==(LengthPercentage, LengthPercentage)`: a Length never equals a Percentage. */
  function LengthPercentageEquals(l: LengthPercentage, r: LengthPercentage): (b: bool)
    ensures b <==> l == r
    ensures l.Len? != r.Len? ==> !b
  {
    if l.Len? && r.Len? then LengthEquals(l.length, r.length)
    else if l.Percent? && r.Percent? then l.percent == r.percent
    else false
  }

  /** `std::optional` equality over LengthPercentageEquals: both empty, or both present and equal. */
  function BasisEquals(l: Option<LengthPercentage>, r: Option<LengthPercentage>): (b: bool)
    ensures b <==> l == r
  {
    match (l, r)
    case (None, None) => true
    case (Some(a), Some(c)) => LengthPercentageEquals(a, c)
    case _ => false
  }

  /** Tuple equality on LayoutLength, componentwise; the no-op test of the width and height
      setters. */
  function LayoutLengthEquals(l: LayoutLength, r: LayoutLength): (b: bool)
    ensures b <==> l == r
  {
    BasisEquals(l.basis, r.basis) && l.grow == r.grow && l.shrink == r.shrink
  }

  /** Lengths in different units are never equal, whatever their values. */
  lemma DifferentUnitsNeverEqual(l: Length, r: Length)
    requires UnitOf(l) != UnitOf(r)
    ensures !LengthEquals(l, r) && !LengthPercentageEquals(Len(l), Len(r))
  {
  }

  /** One pixel is not one em. */
  lemma OnePxIsNotOneEm()
    ensures !LengthEquals(Px(1.0), Em(1.0))
  {
  }

  /** Both equalities are symmetric. */
  lemma EqualitiesAreSymmetric(a: LengthPercentage, b: LengthPercentage)
    ensures LengthPercentageEquals(a, b) == LengthPercentageEquals(b, a)
    ensures a.Len? && b.Len? ==> LengthEquals(a.length, b.length) == LengthEquals(b.length, a.length)
  {
  }
}
