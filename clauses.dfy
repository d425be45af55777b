/** The text fragments the builder appends: the property clause of a node
    (generateClause), the MATCH fragment, the three relationship fragments and
    the RETURN clause of build. Each fold is written as the source's `reduce`
    and proved equal to a plain join. */
module Clauses {
  import opened Text

  /** One property of a node: a key and the text of its value, in the order
      Object.keys lists them. */
  type Prop = (string, string)

  /** `key:'value'` */
  function Entry(p: Prop): string
  {
    p.0 + ":'" + p.1 + "'"
  }

  function Entries(data: seq<Prop>): (r: seq<string>)
    ensures |r| == |data| && forall i :: 0 <= i < |data| ==> r[i] == Entry(data[i])
  {
    seq(|data|, i requires 0 <= i < |data| => Entry(data[i]))
  }

  /** The reduce callback of generateClause applied to the keys from index `i`
      on: each entry is followed by "}" when it is the last one, ", " otherwise. */
  function ClauseFold(acc: string, data: seq<Prop>, i: nat): string
    requires i <= |data|
    decreases |data| - i
  {
    if i == |data| then acc
    else ClauseFold(acc + Entry(data[i]) + (if i == |data| - 1 then "}" else ", "), data, i + 1)
  }

  /** generateClause: the reduce started from " {". */
  function GenerateClause(data: seq<Prop>): string
  {
    ClauseFold(" {", data, 0)
  }

  /** The property part of a MATCH fragment: generated only for a non-empty mapping. */
  function PropertyClause(data: seq<Prop>): string
  {
    if |data| > 0 then GenerateClause(data) else ""
  }

  lemma {:induction false} ClauseFoldJoin(acc: string, data: seq<Prop>, i: nat)
    requires i < |data|
    ensures ClauseFold(acc, data, i) == acc + Join(Entries(data[i..]), ", ") + "}"
    decreases |data| - i
  {
    var es := Entries(data[i..]);
    if i == |data| - 1 {
      assert es == [Entry(data[i])];
    } else {
      var next := acc + Entry(data[i]) + ", ";
      ClauseFoldJoin(next, data, i + 1);
      assert es[1..] == Entries(data[i + 1..]);
      assert Join(es, ", ") == Entry(data[i]) + ", " + Join(es[1..], ", ");
    }
  }

  /** A non-empty mapping renders as " {" + the entries joined by ", " + "}";
      an empty one contributes nothing. */
  lemma PropertyClauseShape(data: seq<Prop>)
    ensures PropertyClause(data) ==
            if data == [] then "" else " {" + Join(Entries(data), ", ") + "}"
  {
    if data != [] {
      ClauseFoldJoin(" {", data, 0);
      assert data[0..] == data;
    }
  }

  /** `:label` when a label is given; an absent (empty) label adds nothing. */
  function LabelSuffix(name: string): string
  {
    if name == "" then "" else ":" + name
  }

  /** `MATCH (var[:label][ {…}])`, given the rendered property clause. */
  function MatchFragment(variable: string, nodeLabel: string, properties: string): (r: string)
    ensures |r| > 7 && r[..7] == "MATCH ("
  {
    "MATCH (" + variable + LabelSuffix(nodeLabel) + properties + ")"
  }

  /** The three link operations. */
  datatype Direction = Undirected | Forward | Backward

  /** `[rel:TYPE]`: the relationship part shared by all three directions, with
      the relationship type upper-cased and left out when absent. */
  function RelationshipBody(relVar: string, relations: string): string
  {
    "[" + relVar + Upper(relations) + "]"
  }

  /** `(node:Label)`: the node part shared by all three directions. */
  function TargetNode(nodeVar: string, relationLabel: string): string
  {
    "(" + nodeVar + LabelSuffix(relationLabel) + ")"
  }

  /** `-[…]-(…)`, `-[…]->(…)` or `<-[…]-(…)`: the fragments differ only in their
      arrows. */
  function LinkFragment(dir: Direction, relVar: string, relations: string,
                        nodeVar: string, relationLabel: string): string
  {
    LeftArrow(dir) + RelationshipBody(relVar, relations) + RightArrow(dir) + TargetNode(nodeVar, relationLabel)
  }

  /** The arrow in front of the relationship part. */
  function LeftArrow(dir: Direction): string
  {
    if dir == Backward then "<-" else "-"
  }

  /** The arrow between the relationship part and the target node. */
  function RightArrow(dir: Direction): string
  {
    if dir == Forward then "->" else "-"
  }

  /** The relationship type as the templates insert it: upper-cased when given. */
  function TypeText(relations: string): string
  {
    if relations != "" then Upper(relations) else ""
  }

  /** The label as the templates insert it: after a colon when given. */
  function LabelText(name: string): string
  {
    if name != "" then ":" + name else ""
  }

  /** The three fragments are the three templates of link, linkForward and
      linkBackward, which differ only in their arrows. */
  lemma LinkFragmentTemplates(relVar: string, relations: string, nodeVar: string, relationLabel: string)
    ensures LinkFragment(Undirected, relVar, relations, nodeVar, relationLabel) ==
            "-[" + relVar + TypeText(relations) + "]-(" + nodeVar + LabelText(relationLabel) + ")"
    ensures LinkFragment(Forward, relVar, relations, nodeVar, relationLabel) ==
            "-[" + relVar + TypeText(relations) + "]->(" + nodeVar + LabelText(relationLabel) + ")"
    ensures LinkFragment(Backward, relVar, relations, nodeVar, relationLabel) ==
            "<-[" + relVar + TypeText(relations) + "]-(" + nodeVar + LabelText(relationLabel) + ")"
  {
    var ty, lb := TypeText(relations), LabelText(relationLabel);
    assert Upper(relations) == ty;
    assert LabelSuffix(relationLabel) == lb;
    var body, target := "[" + relVar + ty + "]", "(" + nodeVar + lb + ")";
    assert "-" + body + "-" + target == "-[" + relVar + ty + "]-(" + nodeVar + lb + ")";
    assert "-" + body + "->" + target == "-[" + relVar + ty + "]->(" + nodeVar + lb + ")";
    assert "<-" + body + "-" + target == "<-[" + relVar + ty + "]-(" + nodeVar + lb + ")";
  }

  /** Inside the relationship part the type follows the variable, every
      character upper-cased. */
  lemma RelationshipBodyUpper(relVar: string, relations: string)
    ensures var body := RelationshipBody(relVar, relations);
            |body| == |relVar| + |relations| + 2 &&
            body[..1 + |relVar|] == "[" + relVar &&
            (forall i :: 0 <= i < |relations| ==> body[1 + |relVar| + i] == UpperChar(relations[i])) &&
            body[|body| - 1] == ']'
  {
    var body := RelationshipBody(relVar, relations);
    assert body == ("[" + relVar) + Upper(relations) + "]";
    forall i | 0 <= i < |relations|
      ensures body[1 + |relVar| + i] == UpperChar(relations[i])
    {
      UpperAt(relations, i);
    }
  }

  /** Different directions give different text, so the direction can be read
      back from the fragment. */
  lemma LinkFragmentDirectionsDiffer(d1: Direction, d2: Direction, relVar: string, relations: string,
                                     nodeVar: string, relationLabel: string)
    requires d1 != d2
    ensures LinkFragment(d1, relVar, relations, nodeVar, relationLabel) !=
            LinkFragment(d2, relVar, relations, nodeVar, relationLabel)
  {
    var body, target := RelationshipBody(relVar, relations), TargetNode(nodeVar, relationLabel);
    var u := "-" + body + "-" + target;
    var f := "-" + body + "->" + target;
    var b := "<-" + body + "-" + target;
    var k := 1 + |body| + 1;
    assert u[0] == '-' && f[0] == '-' && b[0] == '<';
    assert u[k] == '(' && f[k] == '>';
  }

  /** ` LIMIT n` for a limit JavaScript treats as true: given and not zero. */
  function LimitSuffix(limit: Option<int>): string
  {
    if limit.Some? && limit.value != 0 then " LIMIT " + IntToString(limit.value) else ""
  }

  /** What the reduce callback of build adds for variable `i`: a comma unless it
      is the first, a space, the variable, and the limit after the last one. */
  function ReturnItem(vars: seq<string>, i: nat, limit: Option<int>): string
    requires i < |vars|
  {
    (if i > 0 then "," else "") + " " + vars[i] + (if i == |vars| - 1 then LimitSuffix(limit) else "")
  }

  /** The reduce of build from index `i` on. */
  function ReturnFold(acc: string, vars: seq<string>, i: nat, limit: Option<int>): string
    requires i <= |vars|
    decreases |vars| - i
  {
    if i == |vars| then acc
    else ReturnFold(acc + ReturnItem(vars, i, limit), vars, i + 1, limit)
  }

  /** The clause build appends: the reduce started from " RETURN". */
  function ReturnClause(vars: seq<string>, limit: Option<int>): string
  {
    ReturnFold(" RETURN", vars, 0, limit)
  }

  /** What precedes variable `i` in the RETURN list. */
  function ReturnLead(i: nat): string
  {
    if i > 0 then ", " else " "
  }

  lemma ReturnItemShape(vars: seq<string>, i: nat, limit: Option<int>)
    requires i < |vars|
    ensures ReturnItem(vars, i, limit) ==
            ReturnLead(i) + vars[i] + (if i == |vars| - 1 then LimitSuffix(limit) else "")
  {
    assert "," + " " == ", ";
    assert "" + " " == " ";
  }

  /** An item that is not the last: its lead and its variable, nothing after. */
  lemma ReturnItemMiddle(vars: seq<string>, i: nat, limit: Option<int>)
    requires i < |vars| - 1
    ensures ReturnItem(vars, i, limit) == ReturnLead(i) + vars[i]
  {
    ReturnItemShape(vars, i, limit);
    assert ReturnLead(i) + vars[i] + "" == ReturnLead(i) + vars[i];
  }

  lemma JoinFrom(vars: seq<string>, i: nat)
    requires i < |vars| - 1
    ensures Join(vars[i..], ", ") == vars[i] + ", " + Join(vars[i + 1..], ", ")
  {
    assert vars[i..][1..] == vars[i + 1..];
  }

  lemma Assoc5(a: string, b: string, c: string, d: string, e: string)
    ensures a + (b + c) + ", " + d + e == a + b + (c + ", " + d) + e
  {
  }

  lemma ReturnFoldLast(acc: string, vars: seq<string>, limit: Option<int>)
    requires |vars| > 0
    ensures ReturnFold(acc, vars, |vars| - 1, limit) ==
            acc + ReturnLead(|vars| - 1) + Join(vars[|vars| - 1..], ", ") + LimitSuffix(limit)
  {
    var i := |vars| - 1;
    ReturnItemShape(vars, i, limit);
    assert vars[i..] == [vars[i]];
    assert ReturnFold(acc, vars, i, limit) == acc + ReturnItem(vars, i, limit);
  }

  lemma {:induction false} ReturnFoldJoin(acc: string, vars: seq<string>, i: nat, limit: Option<int>)
    requires i < |vars|
    ensures ReturnFold(acc, vars, i, limit) ==
            acc + ReturnLead(i) + Join(vars[i..], ", ") + LimitSuffix(limit)
    decreases |vars| - i
  {
    if i == |vars| - 1 {
      ReturnFoldLast(acc, vars, limit);
    } else {
      var lead, v := ReturnLead(i), vars[i];
      var rest, tail := Join(vars[i + 1..], ", "), LimitSuffix(limit);
      ReturnItemMiddle(vars, i, limit);
      assert ReturnFold(acc, vars, i, limit) == ReturnFold(acc + (lead + v), vars, i + 1, limit);
      ReturnFoldJoin(acc + (lead + v), vars, i + 1, limit);
      assert ReturnLead(i + 1) == ", ";
      JoinFrom(vars, i);
      Assoc5(acc, lead, v, rest, tail);
    }
  }

  /** " RETURN" followed by the variables joined by ", " (after one space) and
      the limit; with no variables just " RETURN", and then no limit either. */
  lemma ReturnClauseShape(vars: seq<string>, limit: Option<int>)
    ensures ReturnClause(vars, limit) ==
            " RETURN" + (if vars == [] then "" else " " + Join(vars, ", ") + LimitSuffix(limit))
  {
    if vars != [] {
      ReturnFoldJoin(" RETURN", vars, 0, limit);
      assert vars[0..] == vars;
    }
  }
}
