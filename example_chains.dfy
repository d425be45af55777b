/** Two example chains, worked out on the step functions and then run on a
    builder object: `match` Person, `link` ACTED_IN to Movie, `build`; and
    `match` Person with name Tom Hanks, `build` with limit 5. Each goes through a
    lemma general in the strings involved, then fixes them with small lemmas
    about the literal fragments. */
module ExampleChains {
  import opened Text
  import opened RelationPattern
  import opened Clauses
  import opened BuilderState
  import opened QueryBuilder

  /** The text each call of the chain appends. */
  const PersonMatch := "MATCH (label1:Person)"
  const ActedInMovie := "-[relation1:ACTED_IN]-(label2:Movie)"
  const PersonMovieReturnText := " RETURN relation1, label1, label2"

  lemma FirstNames()
    ensures NodeVariable(1) == "label1" && NodeVariable(2) == "label2"
    ensures RelationVariable(1) == "relation1"
  {
  }

  lemma PersonFragment()
    ensures MatchFragment("label1", "Person", "") == PersonMatch
  {
    assert LabelSuffix("Person") == ":Person";
  }

  lemma ActedInUpper()
    ensures Upper(":ACTED_IN") == ":ACTED_IN"
  {
    UpperWithoutLowerCase(":ACTED_IN");
  }

  lemma ActedInBody()
    ensures RelationshipBody("relation1", ":ACTED_IN") == "[relation1:ACTED_IN]"
  {
    ActedInUpper();
    ActedInBodyPieces();
  }

  lemma ActedInBodyPieces()
    ensures "[" + "relation1" + ":ACTED_IN" + "]" == "[relation1:ACTED_IN]"
  {
  }

  lemma MovieTarget()
    ensures TargetNode("label2", "Movie") == "(label2:Movie)"
  {
    assert "(" + "label2" + ":Movie" + ")" == "(label2:Movie)";
  }

  lemma ActedInMovieText()
    ensures "-" + "[relation1:ACTED_IN]" + "-" + "(label2:Movie)" == "-[relation1:ACTED_IN]-(label2:Movie)"
  {
  }

  /** The undirected link fragment: relationship relation1 of type ACTED_IN to node label2:Movie. */
  lemma ActedInMovieLink()
    ensures LinkFragment(Undirected, "relation1", ":ACTED_IN", "label2", "Movie") ==
            "-[relation1:ACTED_IN]-(label2:Movie)"
  {
    ActedInBody();
    MovieTarget();
    ActedInMovieText();
  }

  lemma ActedInAccepted()
    ensures Accepted(":ACTED_IN")
  {
    ExampleSingleType();
  }

  /** The RETURN clause over one relationship variable and two node variables. */
  lemma PersonMovieReturn()
    ensures ReturnClause(["relation1", "label1", "label2"], None) == PersonMovieReturnText
  {
    ReturnClauseShape(["relation1", "label1", "label2"], None);
    JoinThree();
    PersonMovieReturnPieces();
  }

  lemma JoinThree()
    ensures Join(["relation1", "label1", "label2"], ", ") == "relation1, label1, label2"
  {
    assert Join(["label2"], ", ") == "label2";
    assert Join(["label1", "label2"], ", ") == "label1" + ", " + "label2";
  }

  lemma PersonMovieReturnPieces()
    ensures " RETURN" + (" " + "relation1, label1, label2" + "") == PersonMovieReturnText
  {
  }

  /** A single property renders as `{key:'value'}` after a space. */
  lemma TomHanksProperties()
    ensures PropertyClause([("name", "Tom Hanks")]) == " {name:'Tom Hanks'}"
  {
  }

  /** A limit follows the last variable. */
  lemma LimitAfterLastVariable()
    ensures ReturnClause(["label1"], Some(5)) == " RETURN label1 LIMIT 5"
  {
  }

  /** One match without properties, one link and a build without limit, from a
      new builder: the relationship variable comes first in the RETURN list. */
  lemma MatchLinkBuild(nodeLabel: string, dir: Direction, relations: string, relationLabel: string)
    requires Accepted(relations)
    ensures var r := LinkStep(MatchStep(Initial, nodeLabel, []), dir, relations, relationLabel);
            r.Ok? &&
            BuildStep(r.value, None).query ==
              MatchFragment("label1", nodeLabel, "") + LinkFragment(dir, "relation1", relations, "label2", relationLabel) +
              " RETURN relation1, label1, label2"
  {
    var s1 := MatchStep(Initial, nodeLabel, []);
    FirstNames();
    assert PropertyClause([]) == "";
    MatchStepSpec(Initial, nodeLabel, []);
    assert s1.nodes == ["label1"] && s1.rels == [];
    LinkStepSpec(s1, dir, relations, relationLabel);
    var s2 := LinkStep(s1, dir, relations, relationLabel).value;
    assert s2.rels + s2.nodes == ["relation1", "label1", "label2"];
    PersonMovieReturn();
  }

  /** The example chain: match Person, link ACTED_IN to Movie, build. */
  lemma PersonActedInMovieSteps()
    ensures var r := LinkStep(MatchStep(Initial, "Person", []), Undirected, ":ACTED_IN", "Movie");
            r.Ok? && BuildStep(r.value, None).query == PersonMatch + ActedInMovie + PersonMovieReturnText
  {
    ActedInAccepted();
    MatchLinkBuild("Person", Undirected, ":ACTED_IN", "Movie");
    FirstNames();
    PersonFragment();
    ActedInMovieLink();
  }

  /** One match and a build, from a new builder. */
  lemma MatchBuild(nodeLabel: string, data: seq<Prop>, limit: Option<int>)
    ensures BuildStep(MatchStep(Initial, nodeLabel, data), limit).query ==
            MatchFragment("label1", nodeLabel, PropertyClause(data)) + ReturnClause(["label1"], limit)
  {
    FirstNames();
    MatchStepSpec(Initial, nodeLabel, data);
    assert [] + ["label1"] == ["label1"];
  }

  lemma TomHanksFragment()
    ensures MatchFragment("label1", "Person", " {name:'Tom Hanks'}") == "MATCH (label1:Person {name:'Tom Hanks'})"
  {
    assert LabelSuffix("Person") == ":Person";
  }

  /** The example chain: match Person with name Tom Hanks, build with limit 5. */
  lemma TomHanksWithLimitSteps()
    ensures BuildStep(MatchStep(Initial, "Person", [("name", "Tom Hanks")]), Some(5)).query ==
            "MATCH (label1:Person {name:'Tom Hanks'})" + " RETURN label1 LIMIT 5"
  {
    MatchBuild("Person", [("name", "Tom Hanks")], Some(5));
    TomHanksProperties();
    TomHanksFragment();
    LimitAfterLastVariable();
  }

  /** `match({label: "Person"})`, `link({relations: ":ACTED_IN", relationLabel: "Movie"})`,
      `build({})` on a new builder object. */
  method PersonActedInMovie() returns (q: string)
    ensures q == "MATCH (label1:Person)" + "-[relation1:ACTED_IN]-(label2:Movie)" + " RETURN relation1, label1, label2"
  {
    PersonActedInMovieSteps();
    var b := new GraphQueryBuilder();
    b.Match("Person", []);
    var r := b.Link(":ACTED_IN", "Movie");
    q := b.Build(None);
  }

  /** `match({label: "Person", data: {name: "Tom Hanks"}})`, `build({limit: 5})` on a
      new builder object. */
  method TomHanksWithLimit() returns (q: string)
    ensures q == "MATCH (label1:Person {name:'Tom Hanks'})" + " RETURN label1 LIMIT 5"
  {
    TomHanksWithLimitSteps();
    var b := new GraphQueryBuilder();
    b.Match("Person", [("name", "Tom Hanks")]);
    q := b.Build(Some(5));
  }
}
