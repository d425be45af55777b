/** The builder's state as a value, and what each operation does to it. The
    class GraphQueryBuilder (module QueryBuilder) is proved to change its fields
    exactly as these steps say. */
module BuilderState {
  import opened Text
  import opened RelationPattern
  import opened Clauses

  /** The query text, then the node variables and the relationship variables,
      each an insertion-ordered set. */
  datatype State = State(query: string, nodes: seq<string>, rels: seq<string>)

  /** The value of an operation that may throw. */
  datatype Result<T> = Ok(value: T) | Err(error: string)

  /** The message of the error the link operations throw. */
  const InvalidParameter := "Invalid Parameter"

  /** A new builder: empty query, no variables. */
  const Initial := State("", [], [])

  /** `prefix` followed by the decimal number `n`. */
  function Variable(prefix: string, n: nat): string
  {
    prefix + NatToString(n)
  }

  function NodeVariable(n: nat): string
  {
    Variable("label", n)
  }

  function RelationVariable(n: nat): string
  {
    Variable("relation", n)
  }

  /** prefix1, prefix2, …, prefixN */
  function Names(prefix: string, n: nat): (r: seq<string>)
    ensures |r| == n
  {
    if n == 0 then [] else Names(prefix, n - 1) + [Variable(prefix, n)]
  }

  lemma {:induction false} NamesAt(prefix: string, n: nat, i: nat)
    requires i < n
    ensures Names(prefix, n)[i] == Variable(prefix, i + 1)
  {
    if i < n - 1 {
      NamesAt(prefix, n - 1, i);
    }
  }

  /** Different numbers give different variable names. */
  lemma VariableInjective(prefix: string, m: nat, n: nat)
    ensures Variable(prefix, m) == Variable(prefix, n) ==> m == n
  {
    if Variable(prefix, m) == Variable(prefix, n) {
      assert Variable(prefix, m)[|prefix|..] == NatToString(m);
      assert Variable(prefix, n)[|prefix|..] == NatToString(n);
      NatToStringInjective(m, n);
    }
  }

  /** A generated list of names holds no name twice. */
  lemma NamesDistinct(prefix: string, n: nat)
    ensures forall i, j :: 0 <= i < j < n ==> Names(prefix, n)[i] != Names(prefix, n)[j]
  {
    forall i, j | 0 <= i < j < n
      ensures Names(prefix, n)[i] != Names(prefix, n)[j]
    {
      NamesAt(prefix, n, i);
      NamesAt(prefix, n, j);
      VariableInjective(prefix, i + 1, j + 1);
    }
  }

  /** The next name is not among the names generated so far. */
  lemma FreshVariable(prefix: string, n: nat)
    ensures Variable(prefix, n + 1) !in Names(prefix, n)
  {
    if Variable(prefix, n + 1) in Names(prefix, n) {
      var i :| 0 <= i < n && Names(prefix, n)[i] == Variable(prefix, n + 1);
      NamesAt(prefix, n, i);
      VariableInjective(prefix, i + 1, n + 1);
    }
  }

  /** No node variable is also a relationship variable. */
  lemma NodeAndRelationNamesDisjoint(m: nat, n: nat)
    ensures forall x :: x in Names("label", m) ==> x !in Names("relation", n)
  {
    forall y | y in Names("relation", n)
      ensures |y| > 0 && y[0] == 'r'
    {
      var j :| 0 <= j < n && Names("relation", n)[j] == y;
      NamesAt("relation", n, j);
    }
    forall x | x in Names("label", m)
      ensures |x| > 0 && x[0] == 'l'
    {
      var i :| 0 <= i < m && Names("label", m)[i] == x;
      NamesAt("label", m, i);
    }
  }

  /** The state invariant: the node variables are exactly label1..labelN and the
      relationship variables exactly relation1..relationM, in that order. */
  predicate Wf(s: State)
  {
    s.nodes == Names("label", |s.nodes|) && s.rels == Names("relation", |s.rels|)
  }

  /** Set.prototype.add on an insertion-ordered set. */
  function Insert(vars: seq<string>, v: string): seq<string>
  {
    if v in vars then vars else vars + [v]
  }

  /** Adding the next generated name to a generated list appends it. */
  lemma InsertNext(prefix: string, n: nat)
    ensures Insert(Names(prefix, n), Variable(prefix, n + 1)) == Names(prefix, n + 1)
  {
    FreshVariable(prefix, n);
  }

  /** match: `MATCH (labelN[:label][ {…}])`, preceded by ", " when the query
      already holds text. */
  function MatchStep(s: State, nodeLabel: string, data: seq<Prop>): State
  {
    var variable := NodeVariable(|s.nodes| + 1);
    State((if s.query != "" then s.query + ", " else "") + MatchFragment(variable, nodeLabel, PropertyClause(data)),
          Insert(s.nodes, variable),
          s.rels)
  }

  /** link, linkForward, linkBackward: check the relationship type, then append
      the fragment and register the relationship variable and the node variable. */
  function LinkStep(s: State, dir: Direction, relations: string, relationLabel: string): Result<State>
  {
    if !Accepted(relations) then Err(InvalidParameter)
    else
      var nodeVar := NodeVariable(|s.nodes| + 1);
      var relVar := RelationVariable(|s.rels| + 1);
      Ok(State(s.query + LinkFragment(dir, relVar, relations, nodeVar, relationLabel),
               Insert(s.nodes, nodeVar),
               Insert(s.rels, relVar)))
  }

  /** build: append the RETURN clause over the relationship variables, then the
      node variables. */
  function BuildStep(s: State, limit: Option<int>): State
  {
    s.(query := s.query + ReturnClause(s.rels + s.nodes, limit))
  }

  /** match only appends to the query. */
  lemma MatchStepExtends(s: State, nodeLabel: string, data: seq<Prop>)
    ensures s.query <= MatchStep(s, nodeLabel, data).query
  {
    var fragment := MatchFragment(NodeVariable(|s.nodes| + 1), nodeLabel, PropertyClause(data));
    if s.query != "" {
      PrefixOfAppend(s.query, ", ", fragment);
    }
  }

  lemma PrefixOfAppend(a: string, b: string, c: string)
    ensures a <= a + b + c
  {
    assert forall i :: 0 <= i < |a| ==> (a + b + c)[i] == a[i];
  }

  /** match adds exactly the next node variable, keeps the relationship
      variables, extends the query, and puts ", " in front of the new clause
      exactly when the query was not empty; the new clause ends the query. */
  lemma MatchStepSpec(s: State, nodeLabel: string, data: seq<Prop>)
    requires Wf(s)
    ensures var t := MatchStep(s, nodeLabel, data);
            var fragment := MatchFragment(NodeVariable(|s.nodes| + 1), nodeLabel, PropertyClause(data));
            Wf(t) &&
            t.nodes == s.nodes + [NodeVariable(|s.nodes| + 1)] &&
            t.rels == s.rels &&
            s.query <= t.query &&
            |t.query| >= |s.query| + 2 &&
            (t.query[|s.query|..|s.query| + 2] == ", " <==> s.query != "") &&
            |fragment| <= |t.query| && t.query[|t.query| - |fragment|..] == fragment
  {
    InsertNext("label", |s.nodes|);
    var t := MatchStep(s, nodeLabel, data);
    var fragment := MatchFragment(NodeVariable(|s.nodes| + 1), nodeLabel, PropertyClause(data));
    if s.query == "" {
      assert t.query == fragment;
      assert t.query[..2] == fragment[..7][..2] == "MA";
      assert t.query[|t.query| - |fragment|..] == t.query[0..] == fragment;
    } else {
      assert t.query == s.query + ", " + fragment;
    }
  }

  /** A link operation fails with "Invalid Parameter" exactly when the
      relationship type is given and does not match the pattern. Otherwise it
      adds exactly the next relationship variable and the next node variable and
      appends its fragment, naming both, with no separator. */
  lemma LinkStepSpec(s: State, dir: Direction, relations: string, relationLabel: string)
    requires Wf(s)
    ensures var r := LinkStep(s, dir, relations, relationLabel);
            (r.Err? <==> relations != "" && !Matches(relations)) &&
            (r.Err? ==> r.error == InvalidParameter) &&
            (r.Ok? ==>
               var t, nodeVar, relVar := r.value, NodeVariable(|s.nodes| + 1), RelationVariable(|s.rels| + 1);
               Wf(t) &&
               t.nodes == s.nodes + [nodeVar] &&
               t.rels == s.rels + [relVar] &&
               t.query == s.query + LinkFragment(dir, relVar, relations, nodeVar, relationLabel))
  {
    InsertNext("label", |s.nodes|);
    InsertNext("relation", |s.rels|);
  }

  /** build keeps the variables and appends " RETURN", then (when there is any
      variable) a space, the relationship variables and node variables joined by
      ", ", and the limit. */
  lemma BuildStepSpec(s: State, limit: Option<int>)
    ensures var t := BuildStep(s, limit);
            var vars := s.rels + s.nodes;
            t.nodes == s.nodes && t.rels == s.rels &&
            (Wf(s) ==> Wf(t)) &&
            t.query == s.query + " RETURN" +
                       (if vars == [] then "" else " " + Join(vars, ", ") + LimitSuffix(limit))
  {
    ReturnClauseShape(s.rels + s.nodes, limit);
  }

  // ---------------------------------------------------------------------
  // Sequences of calls

  /** One chained call before build. */
  datatype Call =
    | MatchCall(nodeLabel: string, data: seq<Prop>)
    | LinkCall(dir: Direction, relations: string, relationLabel: string)

  function Apply(s: State, c: Call): Result<State>
  {
    match c
    case MatchCall(nodeLabel, data) => Ok(MatchStep(s, nodeLabel, data))
    case LinkCall(dir, relations, relationLabel) => LinkStep(s, dir, relations, relationLabel)
  }

  /** The calls in order; the first error is thrown out of the chain. */
  function Run(s: State, calls: seq<Call>): Result<State>
    decreases |calls|
  {
    if calls == [] then Ok(s)
    else match Apply(s, calls[0])
      case Err(e) => Err(e)
      case Ok(t) => Run(t, calls[1..])
  }

  /** The number of link calls. */
  function LinkCount(calls: seq<Call>): nat
  {
    if calls == [] then 0 else (if calls[0].LinkCall? then 1 else 0) + LinkCount(calls[1..])
  }

  /** A chain fails exactly when one of its link calls has a rejected relationship type. */
  lemma {:induction false} RunFailsOnlyOnRejectedType(s: State, calls: seq<Call>)
    ensures Run(s, calls).Ok? <==>
            forall i :: 0 <= i < |calls| && calls[i].LinkCall? ==> Accepted(calls[i].relations)
    decreases |calls|
  {
    if calls != [] {
      match Apply(s, calls[0])
      case Err(e) =>
      case Ok(t) =>
        RunFailsOnlyOnRejectedType(t, calls[1..]);
        assert forall i :: 1 <= i < |calls| ==> calls[i] == calls[1..][i - 1];
    }
  }

  /** Every call adds one node variable and every link call one relationship
      variable, the names stay label1..labelN and relation1..relationM, and the
      query only grows. */
  lemma {:induction false} RunKeepsNaming(s: State, calls: seq<Call>)
    requires Wf(s)
    ensures Run(s, calls).Ok? ==>
            var t := Run(s, calls).value;
            Wf(t) &&
            |t.nodes| == |s.nodes| + |calls| &&
            |t.rels| == |s.rels| + LinkCount(calls) &&
            s.query <= t.query
    decreases |calls|
  {
    if calls != [] {
      match calls[0] {
        case MatchCall(nodeLabel, data) => MatchStepSpec(s, nodeLabel, data);
        case LinkCall(dir, relations, relationLabel) => LinkStepSpec(s, dir, relations, relationLabel);
      }
      if Apply(s, calls[0]).Ok? {
        RunKeepsNaming(Apply(s, calls[0]).value, calls[1..]);
      }
    }
  }

  /** From a new builder, a chain of N calls of which M are links leaves the
      variables label1..labelN and relation1..relationM, all distinct. */
  lemma RunFromInitial(calls: seq<Call>)
    ensures Run(Initial, calls).Ok? ==>
            var t := Run(Initial, calls).value;
            t.nodes == Names("label", |calls|) &&
            t.rels == Names("relation", LinkCount(calls)) &&
            (forall i, j :: 0 <= i < j < |t.nodes| ==> t.nodes[i] != t.nodes[j]) &&
            (forall i, j :: 0 <= i < j < |t.rels| ==> t.rels[i] != t.rels[j]) &&
            (forall x :: x in t.nodes ==> x !in t.rels)
  {
    RunKeepsNaming(Initial, calls);
    NamesDistinct("label", |calls|);
    NamesDistinct("relation", LinkCount(calls));
    NodeAndRelationNamesDisjoint(|calls|, LinkCount(calls));
  }
}
