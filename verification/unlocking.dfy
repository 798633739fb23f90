/**
 * The three-way standing shared by skill nodes and boss challenges: being
 * completed outranks being unlocked, and anything neither completed nor
 * unlocked is locked. Both views draw a status with the same icon, colour
 * and card highlight.
 */
module Unlocking {
  datatype Status = Completed | Available | Locked

  /** The precedence both views apply: completed first, then unlocked, else locked. */
  function StatusOf(completed: bool, unlocked: bool): (s: Status)
    ensures s == Completed <==> completed
    ensures s == Available <==> !completed && unlocked
    ensures s == Locked <==> !completed && !unlocked
  {
    if completed then Completed else if unlocked then Available else Locked
  }

  datatype Icon = CheckCircle | Star | Lock

  /** The icon and text colour that stand for a status, as the skill tree's legend pairs them. */
  datatype StatusBadge = StatusBadge(icon: Icon, color: string)

  function BadgeFor(s: Status): StatusBadge {
    match s
    case Completed => StatusBadge(CheckCircle, "text-success")
    case Available => StatusBadge(Star, "text-primary")
    case Locked => StatusBadge(Lock, "text-muted-foreground")
  }

  /** How a card is highlighted: a success ring, a primary ring, or greyed out. */
  datatype CardLook = SuccessRing | PrimaryRing | Dimmed

  function LookFor(s: Status): CardLook {
    match s
    case Completed => SuccessRing
    case Available => PrimaryRing
    case Locked => Dimmed
  }

  /** The legend is unambiguous: different statuses get different badges and different card looks. */
  lemma LegendDistinguishes(s: Status, t: Status)
    ensures BadgeFor(s) == BadgeFor(t) <==> s == t
    ensures BadgeFor(s).icon == BadgeFor(t).icon <==> s == t
    ensures LookFor(s) == LookFor(t) <==> s == t
  {
  }
}
