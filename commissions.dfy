/** The admin's commission screen: one row per agent found among the players,
    with the agent's GGR (stakes minus settled payouts of the bets that carry
    the agent's id) and a commission at the flat rate of 20%. */
module Commissions {
  import opened Common
  import opened Records

  /** The rate every agent is shown with. */
  const Rate: real := 0.2

  /** What the screen keeps per agent id. */
  datatype Entry = Entry(name: string, rate: real, ggr: real, commission: real)

  /** A row of the table, in the order the agent ids were first met. */
  datatype Row = Row(agentId: string, entry: Entry)

  /** The entry an agent starts with before its figures are computed. */
  const Blank: Entry := Entry("", 0.0, 0.0, 0.0)

  /** `bets.filter(b => b.agentId === aid)`. */
  function BetsOf(bets: seq<Bet>, aid: string): (r: seq<Bet>)
    ensures forall b :: b in r <==> b in bets && b.agentId == aid
  {
    if bets == [] then []
    else BetsOf(bets[..|bets| - 1], aid) + (if bets[|bets| - 1].agentId == aid then [bets[|bets| - 1]] else [])
  }

  /** The total staked on `bets`. */
  function Stakes(bets: seq<Bet>): real
  {
    if bets == [] then 0.0 else Stakes(bets[..|bets| - 1]) + bets[|bets| - 1].stake
  }

  /** What `bets` paid out: a null payout (an open bet) adds nothing. */
  function Payouts(bets: seq<Bet>): real
  {
    if bets == [] then 0.0
    else Payouts(bets[..|bets| - 1]) + bets[|bets| - 1].payout.GetOr(0.0)
  }

  /** An agent's GGR: the stakes of its bets minus their payouts, not clamped. */
  function Ggr(bets: seq<Bet>, aid: string): real
  {
    Stakes(BetsOf(bets, aid)) - Payouts(BetsOf(bets, aid))
  }

  /** The distinct agent ids of `players`, in the order they are first met. */
  function AgentIds(players: seq<Player>): (ids: seq<string>)
    ensures forall i, j :: 0 <= i < j < |ids| ==> ids[i] != ids[j]
    ensures forall a :: a in ids <==> exists p :: p in players && p.agentId == a
  {
    if players == [] then []
    else
      var prefix := AgentIds(players[..|players| - 1]);
      var a := players[|players| - 1].agentId;
      assert forall p :: p in players <==> p in players[..|players| - 1] || p == players[|players| - 1];
      if a in prefix then prefix else prefix + [a]
  }

  /** The properties every plain object inherits from `Object.prototype`;
      reading one of them from `{}` gives a function or an object, never
      `undefined`. */
  const InheritedKeys: set<string> := {
    "constructor", "__proto__", "toString", "toLocaleString", "valueOf",
    "hasOwnProperty", "isPrototypeOf", "propertyIsEnumerable",
    "__defineGetter__", "__defineSetter__", "__lookupGetter__", "__lookupSetter__"
  }

  /** The agent ids the first pass collects as written: `!agentMap[p.agentId]`
      is false for an inherited property as well as for an own entry, so an
      agent id naming one of `Object.prototype`'s properties is never added. */
  function AgentIdsAsWritten(players: seq<Player>): (ids: seq<string>)
    ensures forall a :: a in ids <==> a !in InheritedKeys && exists p :: p in players && p.agentId == a
  {
    if players == [] then []
    else
      var prefix := AgentIdsAsWritten(players[..|players| - 1]);
      var a := players[|players| - 1].agentId;
      assert forall p :: p in players <==> p in players[..|players| - 1] || p == players[|players| - 1];
      if a in prefix || a in InheritedKeys then prefix else prefix + [a]
  }

  /** The players of an agent whose id is "constructor" lead to no row at all
      as written, while the own-key check gives that agent its row. */
  lemma InheritedAgentDropped()
    ensures var p := Player("p1", "constructor", "Ana", "ana@example.com", "", "1", 0.0);
      AgentIdsAsWritten([p]) == [] && AgentIds([p]) == ["constructor"]
  {
    var p := Player("p1", "constructor", "Ana", "ana@example.com", "", "1", 0.0);
    assert [p][..0] == [];
  }

  /** Away from the inherited names the as-written pass and the own-key pass
      collect the same ids in the same order. */
  lemma {:induction false} AsWrittenAgreesOffPrototype(players: seq<Player>)
    requires forall i :: 0 <= i < |players| ==> players[i].agentId !in InheritedKeys
    ensures AgentIdsAsWritten(players) == AgentIds(players)
  {
    if players != [] {
      AsWrittenAgreesOffPrototype(players[..|players| - 1]);
    }
  }

  /** `players.find(p => p.agentId === aid)`. */
  function FindByAgent(players: seq<Player>, aid: string): (r: Option<Player>)
    ensures r.Some? ==> r.value in players && r.value.agentId == aid
    ensures r.Some? ==>
      exists k :: 0 <= k < |players| && players[k] == r.value && (forall j :: 0 <= j < k ==> players[j].agentId != aid)
    ensures r.None? ==> forall p :: p in players ==> p.agentId != aid
  {
    if players == [] then None
    else if players[0].agentId == aid then Some(players[0])
    else FindByAgent(players[1..], aid)
  }

  /** The first pass of `loadCommissions`: a blank entry for every agent id
      not seen before, remembering the order the ids were first met. */
  method CollectAgents(players: seq<Player>) returns (agents: seq<string>, agentMap: map<string, Entry>)
    ensures agents == AgentIds(players)
    ensures forall a :: a in agentMap <==> a in agents
    ensures forall a :: a in agentMap ==> agentMap[a] == Blank
  {
    agents, agentMap := [], map[];
    for i := 0 to |players|
      invariant agents == AgentIds(players[..i])
      invariant forall a :: a in agentMap <==> a in agents
      invariant forall a :: a in agentMap ==> agentMap[a] == Blank
    {
      assert players[..i + 1][..i] == players[..i];
      var aid := players[i].agentId;
      if aid !in agentMap {
        agentMap := agentMap[aid := Blank];
        agents := agents + [aid];
      }
    }
    assert players[..|players|] == players;
  }

  /** The inner pass: the stakes and the non-null payouts of one agent's bets. */
  method SumBets(agentBets: seq<Bet>) returns (stakeSum: real, payoutSum: real)
    ensures stakeSum == Stakes(agentBets) && payoutSum == Payouts(agentBets)
  {
    stakeSum, payoutSum := 0.0, 0.0;
    for j := 0 to |agentBets|
      invariant stakeSum == Stakes(agentBets[..j])
      invariant payoutSum == Payouts(agentBets[..j])
    {
      assert agentBets[..j + 1][..j] == agentBets[..j];
      stakeSum := stakeSum + agentBets[j].stake;
      if agentBets[j].payout.Some? {
        payoutSum := payoutSum + agentBets[j].payout.value;
      }
    }
    assert agentBets[..|agentBets|] == agentBets;
  }

  /** The second pass for one agent id: its GGR over the bets carrying the
      id, the flat rate and the commission, and as name the agent id of a
      player found with that id (the id itself when none is). */
  method AgentEntry(players: seq<Player>, bets: seq<Bet>, aid: string) returns (e: Entry)
    ensures e == Entry(aid, Rate, Ggr(bets, aid), Ggr(bets, aid) * Rate)
  {
    var stakeSum, payoutSum := SumBets(BetsOf(bets, aid));
    var ggrAgent := stakeSum - payoutSum;
    var anyPlayer := FindByAgent(players, aid);
    var name := if anyPlayer.Some? then anyPlayer.value.agentId else aid;
    e := Entry(name, Rate, ggrAgent, ggrAgent * Rate);
  }

  /** The second pass: every agent id of `agents` gets its computed entry,
      and no key is added or dropped. */
  method ComputeEntries(players: seq<Player>, bets: seq<Bet>, agents: seq<string>, agentMap: map<string, Entry>)
    returns (filled: map<string, Entry>)
    requires forall a :: a in agentMap <==> a in agents
    ensures forall a :: a in filled <==> a in agents
    ensures forall j :: 0 <= j < |agents| ==>
      filled[agents[j]] == Entry(agents[j], Rate, Ggr(bets, agents[j]), Ggr(bets, agents[j]) * Rate)
  {
    filled := agentMap;
    for k := 0 to |agents|
      invariant forall a :: a in filled <==> a in agents
      invariant forall j :: 0 <= j < k ==>
        filled[agents[j]] == Entry(agents[j], Rate, Ggr(bets, agents[j]), Ggr(bets, agents[j]) * Rate)
    {
      var aid := agents[k];
      var e := AgentEntry(players, bets, aid);
      filled := filled[aid := e];
    }
  }

  /** `loadCommissions` for an admin: a first pass creates a blank entry for
      each new agent id among the players, a second pass computes each
      agent's GGR over the bets carrying its id and its commission at the
      flat rate, and the rows come out one per agent in first-seen order. */
  method Breakdown(players: seq<Player>, bets: seq<Bet>) returns (rows: seq<Row>)
    ensures |rows| == |AgentIds(players)|
    ensures forall i :: 0 <= i < |rows| ==> rows[i].agentId == AgentIds(players)[i]
    ensures forall i :: 0 <= i < |rows| ==>
      var aid := rows[i].agentId;
      rows[i].entry == Entry(aid, Rate, Ggr(bets, aid), Ggr(bets, aid) * Rate)
  {
    var agents, agentMap := CollectAgents(players);
    agentMap := ComputeEntries(players, bets, agents, agentMap);
    rows := seq(|agents|, i requires 0 <= i < |agents| => Row(agents[i], agentMap[agents[i]]));
  }

  /** A bet of the agent's that is still open raises its GGR by exactly the
      stake: the null payout is skipped, not counted. */
  lemma OpenBetAddsStake(bets: seq<Bet>, b: Bet)
    requires b.payout.None?
    ensures Ggr(bets + [b], b.agentId) == Ggr(bets, b.agentId) + b.stake
  {
    assert (bets + [b])[..|bets|] == bets;
    var mine := BetsOf(bets, b.agentId);
    assert BetsOf(bets + [b], b.agentId) == mine + [b];
    assert (mine + [b])[..|mine|] == mine;
  }

  /** An agent none of whose bets are in the list has GGR 0 and commission 0. */
  lemma {:induction false} NoBetsNoCommission(bets: seq<Bet>, aid: string)
    requires forall b :: b in bets ==> b.agentId != aid
    ensures Ggr(bets, aid) == 0.0 && Ggr(bets, aid) * Rate == 0.0
  {
    if bets != [] {
      NoBetsNoCommission(bets[..|bets| - 1], aid);
    }
  }

  /** The GGR is not clamped at zero: it is negative, and so is the
      commission, exactly when the agent's bets paid out more than they took. */
  lemma NegativeGgr(bets: seq<Bet>, aid: string)
    ensures Ggr(bets, aid) < 0.0 <==> Payouts(BetsOf(bets, aid)) > Stakes(BetsOf(bets, aid))
    ensures Ggr(bets, aid) * Rate < 0.0 <==> Ggr(bets, aid) < 0.0
  {
  }

  /** The GGR of the bets whose agent id is in `agents`. */
  function AttributedGgr(bets: seq<Bet>, agents: seq<string>): real
  {
    if bets == [] then 0.0
    else
      var b := bets[|bets| - 1];
      AttributedGgr(bets[..|bets| - 1], agents) + (if b.agentId in agents then b.stake - b.payout.GetOr(0.0) else 0.0)
  }

  /** The sum of the agents' GGRs. */
  function SumGgr(bets: seq<Bet>, agents: seq<string>): real
  {
    if agents == [] then 0.0 else SumGgr(bets, agents[..|agents| - 1]) + Ggr(bets, agents[|agents| - 1])
  }

  /** The sum of the agents' commissions. */
  function SumCommission(bets: seq<Bet>, agents: seq<string>): real
  {
    if agents == [] then 0.0
    else SumCommission(bets, agents[..|agents| - 1]) + Ggr(bets, agents[|agents| - 1]) * Rate
  }

  /** The commissions add up to the flat rate applied to the summed GGRs. */
  lemma {:induction false} SumCommissionIsRate(bets: seq<Bet>, agents: seq<string>)
    ensures SumCommission(bets, agents) == SumGgr(bets, agents) * Rate
  {
    if agents != [] {
      SumCommissionIsRate(bets, agents[..|agents| - 1]);
    }
  }

  /** One more bet changes the sum over distinct agents by its own margin
      exactly when its agent is among them. */
  lemma {:induction false} SumGgrStep(bets: seq<Bet>, b: Bet, agents: seq<string>)
    requires forall i, j :: 0 <= i < j < |agents| ==> agents[i] != agents[j]
    ensures SumGgr(bets + [b], agents) ==
      SumGgr(bets, agents) + (if b.agentId in agents then b.stake - b.payout.GetOr(0.0) else 0.0)
  {
    if agents != [] {
      var rest := agents[..|agents| - 1];
      var a := agents[|agents| - 1];
      SumGgrStep(bets, b, rest);
      assert (bets + [b])[..|bets|] == bets;
      var mine := BetsOf(bets, a);
      if b.agentId == a {
        assert BetsOf(bets + [b], a) == mine + [b];
        assert (mine + [b])[..|mine|] == mine;
        assert b.agentId !in rest;
      } else {
        assert BetsOf(bets + [b], a) == mine;
        assert b.agentId in agents <==> b.agentId in rest;
      }
    }
  }

  /** The breakdown splits the house's GGR between the agents: over distinct
      agent ids, the agents' GGRs add up to the GGR of the bets carrying one
      of those ids, and their commissions to 20% of it. */
  lemma {:induction false} BreakdownPartitionsGgr(bets: seq<Bet>, agents: seq<string>)
    requires forall i, j :: 0 <= i < j < |agents| ==> agents[i] != agents[j]
    ensures SumGgr(bets, agents) == AttributedGgr(bets, agents)
    ensures SumCommission(bets, agents) == AttributedGgr(bets, agents) * Rate
  {
    SumCommissionIsRate(bets, agents);
    if bets == [] {
      EmptyBetsSumZero(agents);
    } else {
      var prefix := bets[..|bets| - 1];
      var b := bets[|bets| - 1];
      assert prefix + [b] == bets;
      BreakdownPartitionsGgr(prefix, agents);
      SumGgrStep(prefix, b, agents);
    }
  }

  lemma {:induction false} EmptyBetsSumZero(agents: seq<string>)
    ensures SumGgr([], agents) == 0.0
  {
    if agents != [] {
      EmptyBetsSumZero(agents[..|agents| - 1]);
    }
  }
}
