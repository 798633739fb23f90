/**
 * The boss challenge arena: which challenges can be opened, how far each has
 * progressed, and what its card shows (status badge, progress section,
 * reward preview and action button).
 */
module Bosses {
  import opened Wrappers
  import Seqs
  import opened Unlocking

  datatype Subject = Math | Physics | Chemistry | Biology | Coding | Engineering

  datatype Tier = Apprentice | Expert | Master | Legendary

  datatype BossPhase = BossPhase(id: string, name: string, completed: bool, timeEstimate: int)

  datatype RewardKind = BadgeReward | AvatarReward | TitleReward | CosmeticReward

  datatype Rarity = Rare | Epic | LegendaryRarity

  datatype BossReward = BossReward(kind: RewardKind, name: string, rarity: Rarity)

  datatype Boss = Boss(
    id: string,
    name: string,
    subject: Subject,
    difficulty: Tier,
    phases: seq<BossPhase>,
    xpReward: int,
    unlocked: bool,
    completed: bool,
    currentPhase: int,
    totalTime: int,
    rewards: seq<BossReward>,
    prerequisite: Option<string>)

  /** The arena's state: the boss whose detail dialog is open. */
  datatype Arena = Arena(selected: Option<Boss>, showDetail: bool)

  // ---------------------------------------------------------------- opening a challenge

  /** `startBossChallenge`: a locked boss is refused, any other opens its detail dialog. */
  function StartBossChallenge(a: Arena, boss: Boss): (r: Arena)
    ensures !boss.unlocked ==> r == a
    ensures boss.unlocked ==> r.selected == Some(boss) && r.showDetail
  {
    if !boss.unlocked then a else Arena(Some(boss), true)
  }

  /** The card's click handler, which checks `unlocked` before calling the start handler. */
  function CardClick(a: Arena, boss: Boss): (r: Arena)
    ensures r.showDetail && !a.showDetail ==> boss.unlocked
    ensures r.selected != a.selected ==> r.selected == Some(boss) && boss.unlocked
  {
    if boss.unlocked then StartBossChallenge(a, boss) else a
  }

  /** The click handler's own check is redundant: clicking a card is starting its challenge. */
  lemma CardClickIsStart(a: Arena, boss: Boss)
    ensures CardClick(a, boss) == StartBossChallenge(a, boss)
  {
  }

  // ---------------------------------------------------------------- progress

  predicate PhaseDone(p: BossPhase) {
    p.completed
  }

  /** `completedPhases`: the phases marked completed, never more than there are phases. */
  function CompletedPhases(boss: Boss): (n: nat)
    ensures n <= |boss.phases|
    ensures n == 0 <==> forall i :: 0 <= i < |boss.phases| ==> !boss.phases[i].completed
    ensures n == |boss.phases| <==> forall i :: 0 <= i < |boss.phases| ==> boss.phases[i].completed
  {
    Seqs.CountWhere(boss.phases, PhaseDone)
  }

  /** The "done/total phases" line of the progress section. */
  datatype PhaseTally = PhaseTally(done: nat, total: nat)

  /**
   * The progress section appears once some phase is completed; its tally
   * then never divides by zero phases.
   */
  function ProgressSection(boss: Boss): (r: Option<PhaseTally>)
    ensures r.Some? <==> exists i :: 0 <= i < |boss.phases| && boss.phases[i].completed
    ensures r.Some? ==> 0 < r.value.done <= r.value.total && r.value.total == |boss.phases|
  {
    var done := CompletedPhases(boss);
    if done > 0 then Some(PhaseTally(done, |boss.phases|)) else None
  }

  // ---------------------------------------------------------------- the card

  function BossStatus(boss: Boss): Status {
    StatusOf(boss.completed, boss.unlocked)
  }

  /** The status icon in the card's header: the same badge the skill tree uses for that status. */
  function HeaderBadge(boss: Boss): (b: StatusBadge)
    ensures b == BadgeFor(BossStatus(boss))
  {
    if boss.completed then StatusBadge(CheckCircle, "text-success")
    else if boss.unlocked then StatusBadge(Star, "text-primary")
    else StatusBadge(Lock, "text-muted-foreground")
  }

  /** The card's highlight, the same as a skill node's of that status. */
  function BossCardLook(boss: Boss): (look: CardLook)
    ensures look == LookFor(BossStatus(boss))
  {
    if boss.completed then SuccessRing else if boss.unlocked then PrimaryRing else Dimmed
  }

  /** The rewards row: the first three rewards and a "+n more" badge for the rest. */
  function RewardPreview(boss: Boss): (p: Seqs.Preview<BossReward>)
    ensures p.shown <= boss.rewards && |p.shown| <= 3
    ensures p.more.Some? <==> |boss.rewards| > 3
    ensures p.more.Some? ==> p.more.value == |boss.rewards| - 3 && p.shown == boss.rewards[..3]
    ensures p.more.None? ==> p.shown == boss.rewards
  {
    Seqs.PreviewOf(boss.rewards, 3)
  }

  /** The lock note: shown on a locked boss that names a (nonempty) prerequisite. */
  function PrerequisiteNote(boss: Boss): (note: Option<string>)
    ensures note.Some? <==> !boss.unlocked && boss.prerequisite.Some? && boss.prerequisite.value != ""
    ensures note.Some? ==> note == boss.prerequisite
  {
    if !boss.unlocked && boss.prerequisite.Some? && boss.prerequisite.value != "" then boss.prerequisite else None
  }

  datatype ActionButton = ActionButton(disabled: bool, text: string)

  /**
   * The card's action button: disabled exactly when the boss is locked, and
   * labelled by status, an available boss reading "Continue Challenge" once
   * some phase is done and "Begin Challenge" before.
   */
  function BossAction(boss: Boss): (b: ActionButton)
    ensures b.disabled <==> !boss.unlocked
    ensures b.text == "Completed" <==> BossStatus(boss) == Completed
    ensures b.text == "Locked" <==> BossStatus(boss) == Locked
    ensures b.text == "Continue Challenge" <==> BossStatus(boss) == Available && CompletedPhases(boss) > 0
    ensures b.text == "Begin Challenge" <==> BossStatus(boss) == Available && CompletedPhases(boss) == 0
  {
    var text :=
      if boss.completed then "Completed"
      else if boss.unlocked then (if CompletedPhases(boss) > 0 then "Continue Challenge" else "Begin Challenge")
      else "Locked";
    ActionButton(!boss.unlocked, text)
  }

  /**
   * Only a button that would start something is enabled: an enabled button
   * reads "Completed", "Continue Challenge" or "Begin Challenge", and the
   * progress section is shown exactly when it reads "Continue Challenge" on
   * an available boss.
   */
  lemma ButtonAgreesWithProgress(boss: Boss)
    ensures !BossAction(boss).disabled ==> BossAction(boss).text != "Locked"
    ensures BossStatus(boss) == Available ==>
      (ProgressSection(boss).Some? <==> BossAction(boss).text == "Continue Challenge")
  {
    if BossStatus(boss) == Available && ProgressSection(boss).Some? {
      var i :| 0 <= i < |boss.phases| && boss.phases[i].completed;
    }
  }

  // ---------------------------------------------------------------- the fixed roster

  function PhaseTime(p: BossPhase): int {
    p.timeEstimate
  }

  /** A boss's advertised time is the sum of its phases' estimates. */
  predicate TimeAddsUp(boss: Boss) {
    boss.totalTime == Seqs.Sum(boss.phases, PhaseTime)
  }

  function CalculusHydra(): Boss {
    Boss("calculus-hydra", "The Calculus Hydra", Math, Apprentice,
      [ BossPhase("1", "Head of Derivatives", false, 15),
        BossPhase("2", "Head of Integrals", false, 20),
        BossPhase("3", "Head of Limits", false, 10) ],
      500, true, false, 0, 45,
      [ BossReward(BadgeReward, "Hydra Slayer", Epic),
        BossReward(AvatarReward, "Mathematical Warrior", Rare),
        BossReward(TitleReward, "Derivative Master", Rare) ],
      None)
  }

  function QuantumDragon(): Boss {
    Boss("quantum-dragon", "Quantum Mechanics Dragon", Physics, Expert,
      [ BossPhase("1", "Wave Function Analysis", false, 25),
        BossPhase("2", "Quantum Tunneling", false, 20),
        BossPhase("3", "Uncertainty Principle", false, 15),
        BossPhase("4", "Final Collapse", false, 10) ],
      800, false, false, 0, 70,
      [ BossReward(BadgeReward, "Quantum Slayer", LegendaryRarity),
        BossReward(CosmeticReward, "Quantum Aura", Epic),
        BossReward(TitleReward, "Wave Whisperer", Epic) ],
      Some("Complete 5 physics topics"))
  }

  function NeuralLeviathan(): Boss {
    Boss("neural-leviathan", "Neural Network Leviathan", Coding, Master,
      [ BossPhase("1", "Data Preprocessing", false, 30),
        BossPhase("2", "Architecture Design", false, 25),
        BossPhase("3", "Training Phase", false, 35),
        BossPhase("4", "Hyperparameter Tuning", false, 20),
        BossPhase("5", "Final Battle", false, 15) ],
      1200, false, false, 0, 125,
      [ BossReward(BadgeReward, "AI Architect", LegendaryRarity),
        BossReward(AvatarReward, "Cyber Sage", LegendaryRarity),
        BossReward(CosmeticReward, "Digital Crown", LegendaryRarity),
        BossReward(TitleReward, "Neural Overlord", LegendaryRarity) ],
      Some("Complete Advanced Programming Track"))
  }

  /** The arena's three bosses, in display order. */
  function Roster(): seq<Boss> {
    [CalculusHydra(), QuantumDragon(), NeuralLeviathan()]
  }

  /** Every boss's advertised time is the sum of its phases. */
  lemma RosterTimesAddUp()
    ensures forall b :: b in Roster() ==> TimeAddsUp(b)
  {
    assert Seqs.Sum(CalculusHydra().phases, PhaseTime) == 45;
    assert Seqs.Sum(QuantumDragon().phases, PhaseTime) == 70;
    assert Seqs.Sum(NeuralLeviathan().phases, PhaseTime) == 125;
  }

  /** Only the first boss can be opened; the others are locked and say why. */
  lemma RosterStanding()
    ensures BossAction(CalculusHydra()) == ActionButton(false, "Begin Challenge")
    ensures BossAction(QuantumDragon()) == ActionButton(true, "Locked")
    ensures BossAction(NeuralLeviathan()) == ActionButton(true, "Locked")
    ensures PrerequisiteNote(QuantumDragon()).Some? && PrerequisiteNote(NeuralLeviathan()).Some?
  {
    var h := CalculusHydra();
    assert forall i :: 0 <= i < |h.phases| ==> !h.phases[i].completed;
  }
}
