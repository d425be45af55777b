/** GraphQueryBuilder: the fluent builder object. Each operation updates the
    query text and the two insertion-ordered variable sets in place, exactly as
    the corresponding step of module BuilderState says, and keeps the naming
    invariant Wf. Chaining (each operation returning the builder itself) is
    modelled by calling the methods one after another on the same object. */
module QueryBuilder {
  import opened Text
  import opened RelationPattern
  import opened Clauses
  import opened BuilderState

  /** What a link operation does: finish normally, or throw an Error with a message. */
  datatype Outcome = Pass | Fail(error: string)

  class GraphQueryBuilder {
    var query: string
    var labelVariables: seq<string>
    var relationsVariables: seq<string>

    /** The builder's fields as a BuilderState value. */
    function Snapshot(): State
      reads this
    {
      State(query, labelVariables, relationsVariables)
    }

    /** The naming invariant: label1..labelN and relation1..relationM. */
    predicate Valid()
      reads this
    {
      Wf(Snapshot())
    }

    constructor ()
      ensures Snapshot() == Initial && Valid()
    {
      query := "";
      labelVariables := [];
      relationsVariables := [];
    }

    /** match({label, data}) */
    method Match(nodeLabel: string, data: seq<Prop>)
      modifies this
      ensures Snapshot() == MatchStep(old(Snapshot()), nodeLabel, data)
      ensures relationsVariables == old(relationsVariables)
      ensures old(query) <= query
      ensures old(Valid()) ==>
                Valid() && labelVariables == old(labelVariables) + [NodeVariable(|old(labelVariables)| + 1)]
    {
      ghost var before := Snapshot();
      var variable := NodeVariable(|labelVariables| + 1);
      var dataR := PropertyClause(data);
      query := (if query != "" then query + ", " else "") + MatchFragment(variable, nodeLabel, dataR);
      if variable !in labelVariables {
        labelVariables := labelVariables + [variable];
      }
      assert Snapshot() == MatchStep(before, nodeLabel, data);
      MatchStepExtends(before, nodeLabel, data);
      if Wf(before) {
        MatchStepSpec(before, nodeLabel, data);
      }
    }

    /** The shared body of link, linkForward and linkBackward. */
    method AddLink(dir: Direction, relations: string, relationLabel: string) returns (r: Outcome)
      modifies this
      ensures var step := LinkStep(old(Snapshot()), dir, relations, relationLabel);
              if step.Ok? then r == Pass && Snapshot() == step.value
              else r == Fail(step.error) && Snapshot() == old(Snapshot())
      ensures old(query) <= query
      ensures old(Valid()) ==> Valid()
      ensures old(Valid()) && r == Pass ==>
                relationsVariables == old(relationsVariables) + [RelationVariable(|old(relationsVariables)| + 1)] &&
                labelVariables == old(labelVariables) + [NodeVariable(|old(labelVariables)| + 1)]
    {
      ghost var before := Snapshot();
      if relations != "" && !Matches(relations) {
        return Fail(InvalidParameter);
      }
      var labelVariable := NodeVariable(|labelVariables| + 1);
      var relationVariable := RelationVariable(|relationsVariables| + 1);
      query := query + LinkFragment(dir, relationVariable, relations, labelVariable, relationLabel);
      PrefixOfAppend(before.query, LinkFragment(dir, relationVariable, relations, labelVariable, relationLabel), "");
      if relationVariable !in relationsVariables {
        relationsVariables := relationsVariables + [relationVariable];
      }
      if labelVariable !in labelVariables {
        labelVariables := labelVariables + [labelVariable];
      }
      r := Pass;
      if Wf(before) {
        LinkStepSpec(before, dir, relations, relationLabel);
      }
    }

    /** link({relations, relationLabel}): `-[relationM:TYPE]-(labelN:Label)` */
    method Link(relations: string, relationLabel: string) returns (r: Outcome)
      modifies this
      ensures var step := LinkStep(old(Snapshot()), Undirected, relations, relationLabel);
              if step.Ok? then r == Pass && Snapshot() == step.value
              else r == Fail(step.error) && Snapshot() == old(Snapshot())
      ensures r.Fail? <==> relations != "" && !Matches(relations)
      ensures old(query) <= query
      ensures old(Valid()) ==> Valid()
      ensures old(Valid()) && r == Pass ==>
                relationsVariables == old(relationsVariables) + [RelationVariable(|old(relationsVariables)| + 1)] &&
                labelVariables == old(labelVariables) + [NodeVariable(|old(labelVariables)| + 1)]
    {
      r := AddLink(Undirected, relations, relationLabel);
    }

    /** linkForward({relations, relationLabel}): `-[relationM:TYPE]->(labelN:Label)` */
    method LinkForward(relations: string, relationLabel: string) returns (r: Outcome)
      modifies this
      ensures var step := LinkStep(old(Snapshot()), Forward, relations, relationLabel);
              if step.Ok? then r == Pass && Snapshot() == step.value
              else r == Fail(step.error) && Snapshot() == old(Snapshot())
      ensures r.Fail? <==> relations != "" && !Matches(relations)
      ensures old(query) <= query
      ensures old(Valid()) ==> Valid()
      ensures old(Valid()) && r == Pass ==>
                relationsVariables == old(relationsVariables) + [RelationVariable(|old(relationsVariables)| + 1)] &&
                labelVariables == old(labelVariables) + [NodeVariable(|old(labelVariables)| + 1)]
    {
      r := AddLink(Forward, relations, relationLabel);
    }

    /** linkBackward({relations, relationLabel}): `<-[relationM:TYPE]-(labelN:Label)` */
    method LinkBackward(relations: string, relationLabel: string) returns (r: Outcome)
      modifies this
      ensures var step := LinkStep(old(Snapshot()), Backward, relations, relationLabel);
              if step.Ok? then r == Pass && Snapshot() == step.value
              else r == Fail(step.error) && Snapshot() == old(Snapshot())
      ensures r.Fail? <==> relations != "" && !Matches(relations)
      ensures old(query) <= query
      ensures old(Valid()) ==> Valid()
      ensures old(Valid()) && r == Pass ==>
                relationsVariables == old(relationsVariables) + [RelationVariable(|old(relationsVariables)| + 1)] &&
                labelVariables == old(labelVariables) + [NodeVariable(|old(labelVariables)| + 1)]
    {
      r := AddLink(Backward, relations, relationLabel);
    }

    /** build({limit}): append the RETURN clause and return the query. */
    method Build(limit: Option<int>) returns (q: string)
      modifies this
      ensures Snapshot() == BuildStep(old(Snapshot()), limit)
      ensures labelVariables == old(labelVariables) && relationsVariables == old(relationsVariables)
      ensures old(query) <= query
      ensures q == query
      ensures old(Valid()) ==> Valid()
    {
      var variables := relationsVariables + labelVariables;
      query := query + ReturnClause(variables, limit);
      q := Return();
    }

    /** return(): the query text, unchanged. */
    method Return() returns (q: string)
      ensures q == query
    {
      q := query;
    }
  }
}
