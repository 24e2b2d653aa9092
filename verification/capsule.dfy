/** The causal audit log (CMF), the dialectic simulator (RDE) and the thin
    certification engine that composes them.

    The log is an append-only sequence of causal nodes whose ids come from
    their 1-based position. Every operation takes the current state and
    returns the new one, so "the earlier history is unchanged" is a property
    of the returned value, not of a mutation.
 */
module Capsule {
  import opened Text

  /* ---------------------------------------------------------------------
     Causal nodes and the audit log
     --------------------------------------------------------------------- */

  /** One record of the log: a clause and how it came about. */
  datatype CausalNode = CausalNode(id: string, clause: string, cause: string, mutation: string, result: string)

  /** The log's state: its history, oldest node first. */
  datatype Cmf = Cmf(history: seq<CausalNode>)

  /** The id of the node at 1-based position `n`: `"CN" + str(n)`. */
  function NodeId(n: nat): (id: string)
    ensures |id| > 2 && id[..2] == "CN" && id[2..] == ShowNat(n)
  {
    var digits := ShowNat(n);
    assert ("CN" + digits)[2..] == digits;
    "CN" + digits
  }

  /** Nodes at different positions get different ids. */
  lemma NodeIdInjective(a: nat, b: nat)
    requires NodeId(a) == NodeId(b)
    ensures a == b
  {
    assert NodeId(a)[2..] == ShowNat(a);
    assert NodeId(b)[2..] == ShowNat(b);
    ShowNatInjective(a, b);
  }

  /** Every node's id names its own 1-based position. */
  predicate Numbered(h: seq<CausalNode>) {
    forall i :: 0 <= i < |h| ==> h[i].id == NodeId(i + 1)
  }

  /** In a numbered history no two nodes share an id. */
  lemma NumberedIdsDistinct(h: seq<CausalNode>)
    requires Numbered(h)
    ensures forall i, j :: 0 <= i < j < |h| ==> h[i].id != h[j].id
  {
    forall i, j | 0 <= i < j < |h|
      ensures h[i].id != h[j].id
    {
      if h[i].id == h[j].id {
        NodeIdInjective(i + 1, j + 1);
      }
    }
  }

  /** Appends a node for `clause` and returns the new log with that node. */
  function Add(c: Cmf, clause: string, cause: string, mutation: string, result: string): (r: (Cmf, CausalNode))
    ensures |r.0.history| == |c.history| + 1
    ensures r.0.history[..|c.history|] == c.history
    ensures r.0.history[|c.history|] == r.1
    ensures r.1.id == NodeId(|r.0.history|)
    ensures r.1.clause == clause && r.1.cause == cause
    ensures r.1.mutation == mutation && r.1.result == result
    ensures Numbered(c.history) ==> Numbered(r.0.history)
  {
    var n := CausalNode(NodeId(|c.history| + 1), clause, cause, mutation, result);
    (Cmf(c.history + [n]), n)
  }

  /** The node `add(clause)` logs at 1-based position `n` with its default
      tags: cause "input", mutation "none", result "ok". */
  function InputNode(n: nat, clause: string): CausalNode {
    CausalNode(NodeId(n), clause, "input", "none", "ok")
  }

  /** `add(clause)` with its default tags: cause "input", mutation "none",
      result "ok". */
  function AddInput(c: Cmf, clause: string): (r: (Cmf, CausalNode))
    ensures r.1 == InputNode(|c.history| + 1, clause)
    ensures r.0.history == c.history + [r.1]
    ensures Numbered(c.history) ==> Numbered(r.0.history)
  {
    Add(c, clause, "input", "none", "ok")
  }

  /** The explanation `'<clause>' due to <cause>/<mutation>`. */
  function WhyEmerged(n: CausalNode): (s: string)
    ensures |s| == |n.clause| + |n.cause| + |n.mutation| + 11
    ensures s[..|n.clause| + 1] == "'" + n.clause
    ensures s[|s| - |n.mutation|..] == n.mutation
    ensures s == "'" + n.clause + "' due to " + n.cause + "/" + n.mutation
  {
    "'" + n.clause + "' due to " + n.cause + "/" + n.mutation
  }

  /** With the tags fixed, the explanation determines the clause. */
  lemma WhyEmergedDeterminesClause(n: CausalNode, m: CausalNode)
    requires n.cause == m.cause && n.mutation == m.mutation
    requires WhyEmerged(n) == WhyEmerged(m)
    ensures n.clause == m.clause
  {
    assert |n.clause| == |m.clause|;
    assert WhyEmerged(n)[1..|n.clause| + 1] == n.clause;
    assert WhyEmerged(m)[1..|m.clause| + 1] == m.clause;
  }

  /** "fault" when the node's result mentions drift or a contradiction,
      "ok" otherwise. */
  function AuditFault(n: CausalNode): (status: string)
    ensures status == "fault" || status == "ok"
    ensures status == "fault" <==> Occurs("drift", n.result) || Occurs("contradiction", n.result)
  {
    if In("drift", n.result) || In("contradiction", n.result) then "fault" else "ok"
  }

  /** Appends a repair node for `n`: the clause prefixed with "Refactor:"
      when the result mentions drift, and unchanged otherwise. The original
      node and the earlier history are left as they are. */
  function Repair(c: Cmf, n: CausalNode): (r: (Cmf, CausalNode))
    ensures |r.0.history| == |c.history| + 1
    ensures r.0.history[..|c.history|] == c.history
    ensures r.0.history[|c.history|] == r.1
    ensures r.1.id == NodeId(|c.history| + 1)
    ensures r.1.cause == "cmf-repair" && r.1.mutation == "refactor" && r.1.result == "progression"
    ensures Occurs("drift", n.result) ==> r.1.clause == "Refactor:" + n.clause
    ensures !Occurs("drift", n.result) ==> r.1.clause == n.clause
    ensures Numbered(c.history) ==> Numbered(r.0.history)
  {
    var fix := if In("drift", n.result) then "Refactor:" + n.clause else n.clause;
    Add(c, fix, "cmf-repair", "refactor", "progression")
  }

  /** A node reporting a contradiction (but no drift) is a fault, and its
      repair keeps the clause unchanged. */
  lemma ContradictionRepairKeepsClause(c: Cmf, clause: string)
    ensures var n := CausalNode("CN1", clause, "input", "none", "contradiction detected");
            AuditFault(n) == "fault" && Repair(c, n).1.clause == clause
  {
    var res := "contradiction detected";
    assert OccursAt(res, "contradiction", 0);
    AbsentCharMeansAbsent(res, "drift", 'f');
  }

  /* ---------------------------------------------------------------------
     The dialectic simulator
     --------------------------------------------------------------------- */

  /** One introspection record; the wall-clock timestamp is not modelled. */
  datatype Introspection = Introspection(agent: string, claim: string, methodTag: string)

  /** The simulator's state: every introspection so far, in order. */
  datatype Rde = Rde(trace: seq<Introspection>)

  /** Records an introspection and returns it. */
  function Introspect(d: Rde, agent: string, claim: string, methodTag: string): (r: (Rde, Introspection))
    ensures r.0.trace == d.trace + [r.1]
    ensures r.1.agent == agent && r.1.claim == claim && r.1.methodTag == methodTag
  {
    var rec := Introspection(agent, claim, methodTag);
    (Rde(d.trace + [rec]), rec)
  }

  /** The synthesis of a disputation and its constant "agree on" field. */
  datatype Dialectic = Dialectic(synthesis: string, agreeOn: string)

  /** The fixed-template critique of two introspections' methods. */
  function Disputation(a: Introspection, b: Introspection): (r: Dialectic)
    ensures r.agreeOn == "shared premises?"
    ensures |r.synthesis| == 21 + |a.methodTag| + |b.methodTag|
    ensures r.synthesis[..17 + |a.methodTag|] == "Method critique: " + a.methodTag
    ensures r.synthesis[|r.synthesis| - |b.methodTag|..] == b.methodTag
    ensures r.synthesis == "Method critique: " + a.methodTag + " vs " + b.methodTag
  {
    Dialectic("Method critique: " + a.methodTag + " vs " + b.methodTag, "shared premises?")
  }

  /** The synthesis depends only on the two methods, not on agents or claims. */
  lemma DisputationIgnoresAgentsAndClaims(a: Introspection, b: Introspection, a2: Introspection, b2: Introspection)
    requires a.methodTag == a2.methodTag && b.methodTag == b2.methodTag
    ensures Disputation(a, b) == Disputation(a2, b2)
  {
  }

  /* ---------------------------------------------------------------------
     The certification engine
     --------------------------------------------------------------------- */

  /** The engine's state: one audit log and one simulator. */
  datatype Engine = Engine(cmf: Cmf, rde: Rde)

  /** A fresh engine with an empty log and an empty trace. */
  function NewEngine(): (e: Engine)
    ensures e.cmf.history == [] && e.rde.trace == []
    ensures Numbered(e.cmf.history)
  {
    Engine(Cmf([]), Rde([]))
  }

  /** The result of one certification. */
  datatype Certification = Certification(
    tierHint: string, cmfReason: string, dialectic: Dialectic, history: seq<CausalNode>)

  /** Certifies a passage: logs it, runs the two fixed introspections and
      their disputation, audits the logged node and repairs it on a fault. */
  function Certify(e: Engine, text: string): (r: (Engine, Certification))
    ensures r.0.cmf.history
            == e.cmf.history + [InputNode(|e.cmf.history| + 1, text)]
    ensures r.1.history == r.0.cmf.history
    ensures r.1.tierHint == "T13-15"
    ensures r.1.cmfReason == WhyEmerged(r.0.cmf.history[|e.cmf.history|])
    ensures r.1.dialectic == Disputation(Introspection("agentA", text, "pattern"),
                                         Introspection("agentB", text, "counterfactual"))
    ensures r.0.rde.trace == e.rde.trace + [Introspection("agentA", text, "pattern"),
                                            Introspection("agentB", text, "counterfactual")]
    ensures Numbered(e.cmf.history) ==> Numbered(r.0.cmf.history)
  {
    CertifyNeverRepairs(e, text);
    var (cmf1, n) := AddInput(e.cmf, text);
    var (rde1, ai) := Introspect(e.rde, "agentA", text, "pattern");
    var (rde2, bi) := Introspect(rde1, "agentB", text, "counterfactual");
    var syn := Disputation(ai, bi);
    var cmf2 := AuditAndRepair(cmf1, n);
    (Engine(cmf2, rde2),
     Certification("T13-15", WhyEmerged(n), syn, cmf2.history))
  }

  /** The explanation a certification reports, spelled out: the passage
      quoted and explained as plain input. */
  lemma CertifyReport(e: Engine, text: string)
    ensures Certify(e, text).1.cmfReason == "'" + text + "' due to input/none"
  {
    var r := Certify(e, text);
    assert r.0.cmf.history[|e.cmf.history|] == InputNode(|e.cmf.history| + 1, text);
    WhyEmergedOfInput(|e.cmf.history| + 1, text);
  }

  /** The critique a certification reports compares the two fixed methods. */
  lemma CertifySynthesis(e: Engine, text: string)
    ensures Certify(e, text).1.dialectic.synthesis == "Method critique: pattern vs counterfactual"
    ensures Certify(e, text).1.dialectic.agreeOn == "shared premises?"
  {
    var a := Introspection("agentA", text, "pattern");
    var b := Introspection("agentB", text, "counterfactual");
    assert Certify(e, text).1.dialectic == Disputation(a, b);
    CritiqueOfFixedMethods(a, b);
  }

  lemma CritiqueOfFixedMethods(a: Introspection, b: Introspection)
    requires a.methodTag == "pattern" && b.methodTag == "counterfactual"
    ensures Disputation(a, b).synthesis == "Method critique: pattern vs counterfactual"
  {
  }

  lemma WhyEmergedOfInput(n: nat, clause: string)
    ensures WhyEmerged(InputNode(n, clause)) == "'" + clause + "' due to input/none"
  {
  }

  /** Audits `n` and, on a fault, logs its repair. */
  function AuditAndRepair(c: Cmf, n: CausalNode): (c2: Cmf)
    ensures AuditFault(n) == "ok" ==> c2 == c
    ensures AuditFault(n) == "fault" ==> c2 == Repair(c, n).0
  {
    if AuditFault(n) != "ok" then Repair(c, n).0 else c
  }

  /** The node a certification logs has result "ok", so the audit never
      reports a fault and the repair branch never runs. */
  lemma CertifyNeverRepairs(e: Engine, text: string)
    ensures AuditFault(AddInput(e.cmf, text).1) == "ok"
  {
    AbsentCharMeansAbsent("ok", "drift", 'd');
    AbsentCharMeansAbsent("ok", "contradiction", 'c');
  }

  /** Certifies the passages one after another on the same engine. */
  function CertifyAll(e: Engine, texts: seq<string>): (r: Engine)
    ensures |r.cmf.history| == |e.cmf.history| + |texts|
    ensures |r.rde.trace| == |e.rde.trace| + 2 * |texts|
    ensures Numbered(e.cmf.history) ==> Numbered(r.cmf.history)
    decreases |texts|
  {
    if |texts| == 0 then e
    else CertifyAll(Certify(e, texts[0]).0, texts[1..])
  }

  /** The input nodes a run of certifications logs for `texts` after `base`
      earlier nodes. */
  function InputNodes(base: nat, texts: seq<string>): (ns: seq<CausalNode>)
    ensures |ns| == |texts|
    decreases |texts|
  {
    if |texts| == 0 then [] else [InputNode(base + 1, texts[0])] + InputNodes(base + 1, texts[1..])
  }

  /** The `i`-th of those nodes carries the `i`-th passage and the id of its
      position in the whole history. */
  lemma {:induction false} InputNodesAt(base: nat, texts: seq<string>, i: nat)
    requires i < |texts|
    ensures InputNodes(base, texts)[i] == InputNode(base + i + 1, texts[i])
    decreases |texts|
  {
    if i > 0 {
      InputNodesAt(base + 1, texts[1..], i - 1);
      assert texts[1..][i - 1] == texts[i];
    }
  }

  /** A session of certifications appends exactly one input node per
      passage, in order and numbered on from the existing history, and
      keeps everything logged before it. */
  lemma {:induction false} CertifyAllAppendsOnePerText(e: Engine, texts: seq<string>)
    ensures CertifyAll(e, texts).cmf.history == e.cmf.history + InputNodes(|e.cmf.history|, texts)
    decreases |texts|
  {
    if |texts| > 0 {
      var e1 := Certify(e, texts[0]).0;
      CertifyAllAppendsOnePerText(e1, texts[1..]);
      AppendThenPrepend(e.cmf.history, InputNode(|e.cmf.history| + 1, texts[0]),
                        InputNodes(|e.cmf.history| + 1, texts[1..]));
    }
  }

  lemma AppendThenPrepend<T>(h: seq<T>, x: T, rest: seq<T>)
    ensures (h + [x]) + rest == h + ([x] + rest)
  {
  }
}
