/**
 * The skill tree: nodes grouped into levels, the levels that are drawn, and
 * the status-driven look of each node card. Both versions of the component
 * share this logic; the later one keeps its list in the browser cache and
 * shows an empty-state panel for an empty list, the earlier one starts from
 * a fixed list.
 */
module SkillTree {
  import opened Wrappers
  import Seqs
  import opened Unlocking

  datatype Subject = Math | Physics | Chemistry | Biology | Coding | Engineering

  datatype SkillNode = SkillNode(
    id: string,
    name: string,
    subject: Subject,
    level: int,
    prerequisiteIds: seq<string>,
    isUnlocked: bool,
    isCompleted: bool,
    progress: int,
    xpReward: int,
    description: string)

  function NodeLevel(n: SkillNode): int {
    n.level
  }

  function NodeId(n: SkillNode): string {
    n.id
  }

  // ---------------------------------------------------------------- grouping

  /**
   * `nodesByLevel`: the left-to-right reduce that appends each node to the
   * bucket of its level. There is a bucket exactly for the levels that occur,
   * and each bucket is the node list filtered to that level, in list order.
   */
  function GroupByLevel(nodes: seq<SkillNode>): (groups: map<int, seq<SkillNode>>)
    ensures forall l :: l in groups <==> Seqs.HasKey(nodes, NodeLevel, l)
    ensures forall l :: l in groups ==> groups[l] == Seqs.Select(nodes, NodeLevel, l)
    decreases |nodes|
  {
    if |nodes| == 0 then map[]
    else
      var init := nodes[..|nodes| - 1];
      var n := nodes[|nodes| - 1];
      var acc := GroupByLevel(init);
      GroupStep(init, n, acc);
      assert nodes == init + [n];
      acc[n.level := Bucket(acc, n.level) + [n]]
  }

  /** Filing one more node under its level turns the grouping of `init` into the grouping of `init + [n]`. */
  lemma GroupStep(init: seq<SkillNode>, n: SkillNode, acc: map<int, seq<SkillNode>>)
    requires forall l :: l in acc <==> Seqs.HasKey(init, NodeLevel, l)
    requires forall l :: l in acc ==> acc[l] == Seqs.Select(init, NodeLevel, l)
    ensures var groups := acc[n.level := Bucket(acc, n.level) + [n]];
      && (forall l :: l in groups <==> Seqs.HasKey(init + [n], NodeLevel, l))
      && (forall l :: l in groups ==> groups[l] == Seqs.Select(init + [n], NodeLevel, l))
  {
    var groups := acc[n.level := Bucket(acc, n.level) + [n]];
    forall l
      ensures l in groups <==> Seqs.HasKey(init + [n], NodeLevel, l)
      ensures l in groups ==> groups[l] == Seqs.Select(init + [n], NodeLevel, l)
    {
      Seqs.SelectAppend(init, [n], NodeLevel, l);
      assert Seqs.Select([n], NodeLevel, l) == (if n.level == l then [n] else []);
    }
  }

  /** `nodesByLevel[level] || []`: the bucket of a level, empty when the level has no nodes. */
  function Bucket(groups: map<int, seq<SkillNode>>, level: int): seq<SkillNode> {
    if level in groups then groups[level] else []
  }

  /** Every node sits in the bucket of its own level and in no other. */
  lemma GroupingIsPartition(nodes: seq<SkillNode>, x: SkillNode, l: int)
    ensures x in Bucket(GroupByLevel(nodes), l) <==> x in nodes && x.level == l
  {
    var groups := GroupByLevel(nodes);
    if x in nodes && x.level == l {
      var i :| 0 <= i < |nodes| && nodes[i] == x;
      assert NodeLevel(nodes[i]) == l;
    }
    if x in Bucket(groups, l) {
      var i :| 0 <= i < |groups[l]| && groups[l][i] == x;
    }
  }

  // ---------------------------------------------------------------- levels drawn

  /** `Math.max(...levels)`; the maximum of no levels is minus infinity, written `None`. */
  function MaxLevel(nodes: seq<SkillNode>): (m: Option<int>)
    ensures m.None? <==> nodes == []
    ensures m.Some? ==> forall i :: 0 <= i < |nodes| ==> nodes[i].level <= m.value
    ensures m.Some? ==> exists i :: 0 <= i < |nodes| && nodes[i].level == m.value
    decreases |nodes|
  {
    if |nodes| == 0 then None
    else
      match MaxLevel(nodes[1..])
      case None => Some(nodes[0].level)
      case Some(rest) =>
        var top := if nodes[0].level >= rest then nodes[0].level else rest;
        assert forall i :: 1 <= i < |nodes| ==> nodes[i] == nodes[1..][i - 1];
        assert top != nodes[0].level ==> exists i :: 1 <= i < |nodes| && nodes[i].level == top by {
          if top != nodes[0].level {
            var k :| 0 <= k < |nodes[1..]| && nodes[1..][k].level == rest;
            assert nodes[k + 1].level == top;
          }
        }
        Some(top)
  }

  /**
   * `Array.from({ length: maxLevel }, (_, i) => i + 1)`: the levels 1 to the
   * maximum, ascending; a maximum below one (or no nodes) gives none.
   */
  function RenderedLevels(nodes: seq<SkillNode>): (levels: seq<int>)
    ensures |levels| == if MaxLevel(nodes).Some? && MaxLevel(nodes).value >= 1 then MaxLevel(nodes).value else 0
    ensures forall i :: 0 <= i < |levels| ==> levels[i] == i + 1
    ensures forall l :: l in levels <==> MaxLevel(nodes).Some? && 1 <= l <= MaxLevel(nodes).value
  {
    match MaxLevel(nodes)
    case None => []
    case Some(top) =>
      var levels := if top < 1 then [] else seq(top, i requires 0 <= i < top => i + 1);
      assert forall l :: 1 <= l <= top ==> l in levels by {
        forall l | 1 <= l <= top
          ensures l in levels
        {
          assert levels[l - 1] == l;
        }
      }
      levels
  }

  /** The cards drawn, level after level, each level's bucket in list order. */
  function CardsAt(groups: map<int, seq<SkillNode>>, levels: seq<int>): (cards: seq<SkillNode>)
    ensures forall x :: x in cards <==> exists k :: 0 <= k < |levels| && x in Bucket(groups, levels[k])
    decreases |levels|
  {
    if |levels| == 0 then []
    else
      var rest := CardsAt(groups, levels[1..]);
      assert forall k :: 1 <= k < |levels| ==> levels[k] == levels[1..][k - 1];
      assert forall x :: x in rest ==> exists k :: 0 <= k < |levels| && x in Bucket(groups, levels[k]) by {
        forall x | x in rest
          ensures exists k :: 0 <= k < |levels| && x in Bucket(groups, levels[k])
        {
          var k :| 0 <= k < |levels[1..]| && x in Bucket(groups, levels[1..][k]);
          assert x in Bucket(groups, levels[k + 1]);
        }
      }
      Bucket(groups, levels[0]) + rest
  }

  /** The cards the tree draws: a node gets one exactly when its level is at least one. */
  function RenderedCards(nodes: seq<SkillNode>): (cards: seq<SkillNode>)
    ensures forall x :: x in cards <==> x in nodes && x.level >= 1
  {
    var cards := CardsAt(GroupByLevel(nodes), RenderedLevels(nodes));
    forall x
      ensures x in cards <==> x in nodes && x.level >= 1
    {
      RenderedIffPositiveLevel(nodes, x);
    }
    cards
  }

  /** A node is among the drawn levels' buckets exactly when its level is at least one: lower levels are never drawn. */
  lemma RenderedIffPositiveLevel(nodes: seq<SkillNode>, x: SkillNode)
    ensures x in CardsAt(GroupByLevel(nodes), RenderedLevels(nodes)) <==> x in nodes && x.level >= 1
  {
    var groups := GroupByLevel(nodes);
    var levels := RenderedLevels(nodes);
    if x in CardsAt(groups, levels) {
      var k :| 0 <= k < |levels| && x in Bucket(groups, levels[k]);
      GroupingIsPartition(nodes, x, levels[k]);
    }
    if x in nodes && x.level >= 1 {
      var i :| 0 <= i < |nodes| && nodes[i] == x;
      assert x.level in levels;
      var k :| 0 <= k < |levels| && levels[k] == x.level;
      GroupingIsPartition(nodes, x, x.level);
    }
  }

  /** What the later version draws: an empty-state panel for no nodes, else the levels. */
  datatype TreeView = NoSkillsYet | Levels(levels: seq<int>)

  function View(nodes: seq<SkillNode>): (v: TreeView)
    ensures v == NoSkillsYet <==> nodes == []
  {
    if |nodes| == 0 then NoSkillsYet else Levels(RenderedLevels(nodes))
  }

  /** Without the empty-state branch the earlier version would draw nothing for no nodes, so the two agree otherwise. */
  lemma ViewsAgree(nodes: seq<SkillNode>)
    ensures nodes == [] ==> RenderedLevels(nodes) == []
    ensures View(nodes).Levels? ==> View(nodes).levels == RenderedLevels(nodes)
  {
  }

  // ---------------------------------------------------------------- the node card

  /** The legend's three rows, in the order drawn. */
  function LegendRows(): seq<(StatusBadge, string)> {
    [(BadgeFor(Completed), "Completed"), (BadgeFor(Available), "Available"), (BadgeFor(Locked), "Locked")]
  }

  function NodeStatus(n: SkillNode): Status {
    StatusOf(n.isCompleted, n.isUnlocked)
  }

  /** `getNodeStatusIcon`: the legend's icon for the node's status. */
  function StatusIcon(n: SkillNode): (icon: Icon)
    ensures icon == BadgeFor(NodeStatus(n)).icon
  {
    if n.isCompleted then CheckCircle else if n.isUnlocked then Star else Lock
  }

  /** `getNodeStatusColor`: the legend's colour for the node's status. */
  function StatusColor(n: SkillNode): (color: string)
    ensures color == BadgeFor(NodeStatus(n)).color
  {
    if n.isCompleted then "text-success" else if n.isUnlocked then "text-primary" else "text-muted-foreground"
  }

  /** The card's ring: success for completed, primary for available, greyed out for locked. */
  function CardLookOf(n: SkillNode): (look: CardLook)
    ensures look == LookFor(NodeStatus(n))
  {
    if n.isCompleted then SuccessRing else if n.isUnlocked then PrimaryRing else Dimmed
  }

  /** A node's icon and colour are those of the legend row naming its status. */
  lemma CardMatchesLegend(n: SkillNode)
    ensures NodeStatus(n) == Completed ==> (StatusIcon(n), StatusColor(n)) == (LegendRows()[0].0.icon, LegendRows()[0].0.color)
    ensures NodeStatus(n) == Available ==> (StatusIcon(n), StatusColor(n)) == (LegendRows()[1].0.icon, LegendRows()[1].0.color)
    ensures NodeStatus(n) == Locked ==> (StatusIcon(n), StatusColor(n)) == (LegendRows()[2].0.icon, LegendRows()[2].0.color)
  {
  }

  /** The progress bar is drawn only for nodes that are available. */
  function ShowsProgress(n: SkillNode): (shown: bool)
    ensures shown <==> NodeStatus(n) == Available
  {
    n.isUnlocked && !n.isCompleted
  }

  datatype NodeButton = NodeButton(disabled: bool, text: string)

  /** The card's button: only on unlocked nodes, disabled and reading "Completed" once the node is done. */
  function ActionButton(n: SkillNode): (b: Option<NodeButton>)
    ensures b.Some? <==> n.isUnlocked
    ensures b.Some? ==> (b.value.disabled <==> NodeStatus(n) == Completed)
    ensures b.Some? ==> (b.value.text == "Completed" <==> b.value.disabled)
    ensures b.Some? ==> (b.value.text == "Continue" <==> !b.value.disabled)
  {
    if n.isUnlocked then Some(NodeButton(n.isCompleted, if n.isCompleted then "Completed" else "Continue"))
    else None
  }

  // ---------------------------------------------------------------- the cached list

  /** The in-memory list and the browser cache entry (`None` when nothing is stored). */
  datatype SkillState = SkillState(nodes: seq<SkillNode>, cache: Option<seq<SkillNode>>)

  /** `saveSkillNodes`: the list and the cache are set to the same nodes. */
  function SaveSkillNodes(st: SkillState, nodes: seq<SkillNode>): (r: SkillState)
    ensures r.nodes == nodes && r.cache == Some(nodes)
  {
    SkillState(nodes, Some(nodes))
  }

  /** The mount effect: start from no nodes and take the cached list when there is one. */
  function Mount(cache: Option<seq<SkillNode>>): (r: SkillState)
    ensures r.cache == cache
    ensures cache.None? ==> r.nodes == []
  {
    SkillState(if cache.Some? then cache.value else [], cache)
  }

  /** A saved list is what the next mount shows. */
  lemma SaveThenMount(st: SkillState, nodes: seq<SkillNode>)
    ensures Mount(SaveSkillNodes(st, nodes).cache) == SaveSkillNodes(st, nodes)
  {
  }

  // ---------------------------------------------------------------- the earlier version's fixed list

  function SeedNodes(): seq<SkillNode> {
    [ SkillNode("basic-algebra", "Basic Algebra", Math, 1, [], true, true, 100, 100,
        "Master variables, equations, and basic algebraic operations"),
      SkillNode("linear-equations", "Linear Equations", Math, 2, ["basic-algebra"], true, false, 65, 150,
        "Solve and graph linear equations and inequalities"),
      SkillNode("quadratic-functions", "Quadratic Functions", Math, 3, ["linear-equations"], false, false, 0, 200,
        "Understand parabolas, factoring, and the quadratic formula"),
      SkillNode("basic-physics", "Kinematics", Physics, 1, [], true, true, 100, 120,
        "Motion, velocity, and acceleration in one dimension"),
      SkillNode("forces-motion", "Forces & Motion", Physics, 2, ["basic-physics"], true, false, 30, 180,
        "Newton's laws and force analysis"),
      SkillNode("html-basics", "HTML Fundamentals", Coding, 1, [], true, true, 100, 90,
        "Structure web pages with semantic HTML elements"),
      SkillNode("css-styling", "CSS Styling", Coding, 2, ["html-basics"], true, false, 45, 130,
        "Style and layout web pages with CSS") ]
  }

  /** The fixed list's levels run from one to three. */
  lemma SeedLevels()
    ensures forall i :: 0 <= i < |SeedNodes()| ==> 1 <= SeedNodes()[i].level <= 3
    ensures MaxLevel(SeedNodes()) == Some(3)
  {
    var ns := SeedNodes();
    assert ns[2].level == 3;
  }

  /** When no level is below one, every node gets a card. */
  lemma AllDrawn(nodes: seq<SkillNode>)
    requires forall i :: 0 <= i < |nodes| ==> nodes[i].level >= 1
    ensures forall x :: x in nodes ==> x in RenderedCards(nodes)
  {
    forall x | x in nodes
      ensures x in RenderedCards(nodes)
    {
      var i :| 0 <= i < |nodes| && nodes[i] == x;
    }
  }

  /** A list whose highest level is three draws levels one, two and three. */
  lemma ThreeLevels(nodes: seq<SkillNode>)
    requires MaxLevel(nodes) == Some(3)
    ensures RenderedLevels(nodes) == [1, 2, 3]
  {
    var levels := RenderedLevels(nodes);
    assert |levels| == 3;
    assert levels == [levels[0], levels[1], levels[2]];
  }

  /** The fixed list draws levels one to three. */
  lemma SeedLevelsDrawn()
    ensures RenderedLevels(SeedNodes()) == [1, 2, 3]
  {
    SeedLevels();
    ThreeLevels(SeedNodes());
  }

  /** Every node of the fixed list gets a card. */
  lemma SeedNodesDrawn()
    ensures forall x :: x in SeedNodes() ==> x in RenderedCards(SeedNodes())
  {
    SeedLevels();
    AllDrawn(SeedNodes());
  }
}
