/** The relationship-type check of the link operations: the regular expression
    `^:\w+((\|:?\w+)+?)?$`, that is a colon, a word, then any number of
    alternatives each made of a bar, an optional colon and a word. `\w` is
    `[A-Za-z0-9_]`. The lazy `+?` does not change which strings match. */
module RelationPattern {
  import opened Text

  predicate IsWordChar(c: char)
  {
    'a' <= c <= 'z' || 'A' <= c <= 'Z' || '0' <= c <= '9' || c == '_'
  }

  /** `\w+` followed by the alternation tail, up to the end of the input. */
  predicate WordThenAlts(s: string)
    decreases |s|
  {
    |s| > 0 && IsWordChar(s[0]) && (WordThenAlts(s[1..]) || Alts(s[1..]))
  }

  /** `(\|:?\w+)*` up to the end of the input. */
  predicate Alts(s: string)
    decreases |s|
  {
    s == [] ||
    (s[0] == '|' &&
     (WordThenAlts(s[1..]) || (|s| > 1 && s[1] == ':' && WordThenAlts(s[2..]))))
  }

  /** The regular expression test on a whole string. */
  predicate Matches(s: string)
  {
    |s| > 0 && s[0] == ':' && WordThenAlts(s[1..])
  }

  /** The guard of the link operations: an absent (empty) relationship type is
      let through unchecked, any other must match the pattern. */
  predicate Accepted(relations: string)
  {
    relations == "" || Matches(relations)
  }

  // ---------------------------------------------------------------------
  // A reference definition: split on '|' and check every part.

  predicate IsWord(w: string)
  {
    |w| > 0 && forall i :: 0 <= i < |w| ==> IsWordChar(w[i])
  }

  /** One alternative after a bar: a word, optionally preceded by a colon. */
  predicate IsAlternative(a: string)
  {
    IsWord(a) || (|a| > 0 && a[0] == ':' && IsWord(a[1..]))
  }

  predicate AllAlternatives(parts: seq<string>)
  {
    forall i :: 0 <= i < |parts| ==> IsAlternative(parts[i])
  }

  /** The parts of `s` between the bars, as String.prototype.split("|") gives them. */
  function SplitBars(s: string): (parts: seq<string>)
    ensures |parts| > 0
  {
    if s == [] then [[]]
    else if s[0] == '|' then [[]] + SplitBars(s[1..])
    else var rest := SplitBars(s[1..]); [[s[0]] + rest[0]] + rest[1..]
  }

  /** Joining the parts again with bars gives back the string. */
  lemma {:induction false} SplitBarsJoin(s: string)
    ensures Join(SplitBars(s), "|") == s
  {
    if s != [] {
      var rest := SplitBars(s[1..]);
      SplitBarsJoin(s[1..]);
      assert s == [s[0]] + s[1..];
      if s[0] == '|' {
        assert SplitBars(s) == [[]] + rest;
      } else if |rest| > 1 {
        var parts := SplitBars(s);
        assert parts[1..] == rest[1..];
        assert Join(rest, "|") == rest[0] + "|" + Join(rest[1..], "|");
        assert Join(parts, "|") == ([s[0]] + rest[0]) + "|" + Join(rest[1..], "|");
      }
    }
  }

  /** No part holds a bar. */
  lemma {:induction false} SplitBarsNoBar(s: string)
    ensures forall i :: 0 <= i < |SplitBars(s)| ==> '|' !in SplitBars(s)[i]
  {
    if s != [] {
      var rest := SplitBars(s[1..]);
      SplitBarsNoBar(s[1..]);
      var parts := SplitBars(s);
      if s[0] == '|' {
        assert parts == [[]] + rest;
        assert forall i :: 1 <= i < |parts| ==> parts[i] == rest[i - 1];
      } else {
        assert parts[0] == [s[0]] + rest[0];
        assert forall i :: 1 <= i < |parts| ==> parts[i] == rest[i];
      }
    }
  }

  /** The pattern as a statement about the parts between the bars. */
  predicate MatchesByParts(s: string)
  {
    |s| > 0 && s[0] == ':' &&
    var parts := SplitBars(s[1..]);
    IsWord(parts[0]) && AllAlternatives(parts[1..])
  }

  lemma IsWordCons(c: char, w: string)
    ensures IsWord([c] + w) <==> IsWordChar(c) && (w == [] || IsWord(w))
  {
    var cw := [c] + w;
    assert cw[0] == c;
    assert forall i :: 1 <= i < |cw| ==> cw[i] == w[i - 1];
    assert forall i :: 0 <= i < |w| ==> w[i] == cw[i + 1];
  }

  lemma AllAlternativesCons(a: string, parts: seq<string>)
    ensures AllAlternatives([a] + parts) <==> IsAlternative(a) && AllAlternatives(parts)
  {
    var ap := [a] + parts;
    assert ap[0] == a;
    assert forall i :: 1 <= i < |ap| ==> ap[i] == parts[i - 1];
    assert forall i :: 0 <= i < |parts| ==> parts[i] == ap[i + 1];
  }

  lemma {:induction false} WordThenAltsByParts(s: string)
    ensures WordThenAlts(s) <==> IsWord(SplitBars(s)[0]) && AllAlternatives(SplitBars(s)[1..])
    decreases |s|, 1
  {
    if s != [] {
      var rest := SplitBars(s[1..]);
      if s[0] == '|' {
        assert SplitBars(s)[0] == [];
      } else {
        assert SplitBars(s)[0] == [s[0]] + rest[0];
        assert SplitBars(s)[1..] == rest[1..];
        IsWordCons(s[0], rest[0]);
        WordThenAltsByParts(s[1..]);
        AltsByParts(s[1..]);
        if s[1..] != [] && s[1] == '|' {
          assert rest == [[]] + SplitBars(s[2..]);
          assert s[1..][1..] == s[2..];
          assert rest[1..] == SplitBars(s[2..]);
        }
      }
    }
  }

  lemma {:induction false} AltsByParts(s: string)
    ensures Alts(s) <==> s == [] || (s[0] == '|' && AllAlternatives(SplitBars(s[1..])))
    decreases |s|, 0
  {
    if s != [] && s[0] == '|' {
      var t := s[1..];
      WordThenAltsByParts(t);
      AllAlternativesCons(SplitBars(t)[0], SplitBars(t)[1..]);
      assert SplitBars(t) == [SplitBars(t)[0]] + SplitBars(t)[1..];
      if t != [] && t[0] == ':' {
        var rest := SplitBars(t[1..]);
        assert t[1..] == s[2..];
        assert SplitBars(t)[0] == [':'] + rest[0];
        assert SplitBars(t)[1..] == rest[1..];
        assert ([':'] + rest[0])[1..] == rest[0];
        IsWordCons(':', rest[0]);
        WordThenAltsByParts(t[1..]);
      } else if t != [] && t[0] != '|' {
        var rest := SplitBars(t[1..]);
        assert SplitBars(t)[0] == [t[0]] + rest[0];
      }
    }
  }

  /** The recursive pattern and the split-based reference accept the same strings. */
  lemma MatchesIffByParts(s: string)
    ensures Matches(s) <==> MatchesByParts(s)
  {
    if |s| > 0 {
      WordThenAltsByParts(s[1..]);
    }
  }

  /** A word followed by a well-formed alternation tail is accepted after the colon. */
  lemma {:induction false} WordThenAltsIntro(w: string, t: string)
    requires IsWord(w) && Alts(t)
    ensures WordThenAlts(w + t)
    decreases |w|
  {
    assert (w + t)[0] == w[0];
    assert (w + t)[1..] == w[1..] + t;
    if |w| > 1 {
      assert IsWord(w[1..]) by {
        assert forall i :: 0 <= i < |w[1..]| ==> w[1..][i] == w[i + 1];
      }
      WordThenAltsIntro(w[1..], t);
    }
  }

  /** A bar, an optional colon and a word extend a well-formed alternation tail. */
  lemma AltsIntro(colon: bool, w: string, t: string)
    requires IsWord(w) && Alts(t)
    ensures Alts("|" + (if colon then ":" else "") + w + t)
  {
    WordThenAltsIntro(w, t);
    var s := "|" + (if colon then ":" else "") + w + t;
    if colon {
      assert s[2..] == w + t;
    } else {
      assert s[1..] == w + t;
    }
  }

  /** A colon and a word, then alternatives each with or without a colon. */
  lemma MatchesIntro(w: string, t: string)
    requires IsWord(w) && Alts(t)
    ensures Matches(":" + w + t)
  {
    WordThenAltsIntro(w, t);
    assert (":" + w + t)[1..] == w + t;
  }

  /** `:ACTED_IN` is accepted; without its colon it is rejected. */
  lemma ExampleSingleType()
    ensures Accepted(":ACTED_IN")
    ensures !Accepted("ACTED_IN")
  {
    var w := "ACTED_IN";
    assert IsWord(w);
    MatchesIntro(w, "");
    assert ":" + w + "" == ":ACTED_IN";
  }

  lemma ColonAlternativePieces()
    ensures ":" + "ACTED_IN" + ("|" + ":" + "DIRECTED" + "") == ":ACTED_IN|:DIRECTED"
  {
  }

  /** An alternative carrying its own colon is accepted. */
  lemma ExampleColonAlternative()
    ensures Accepted(":ACTED_IN|:DIRECTED")
  {
    assert IsWord("ACTED_IN") && IsWord("DIRECTED");
    AltsIntro(true, "DIRECTED", "");
    MatchesIntro("ACTED_IN", "|" + ":" + "DIRECTED" + "");
    ColonAlternativePieces();
  }

  /** Three words separated by bare bars match after a colon. */
  lemma ThreeBareWords(a: string, b: string, c: string)
    requires IsWord(a) && IsWord(b) && IsWord(c)
    ensures Matches(":" + a + "|" + b + "|" + c)
  {
    AltsIntro(false, c, "");
    var t3 := "|" + "" + c + "";
    AltsIntro(false, b, t3);
    var t2 := "|" + "" + b + t3;
    MatchesIntro(a, t2);
    assert ":" + a + t2 == ":" + a + "|" + b + "|" + c;
  }

  lemma BareAlternativesPieces()
    ensures ":" + "ACTED_IN" + "|" + "DIRECTED" + "|" + "PRODUCED" == ":ACTED_IN|DIRECTED|PRODUCED"
  {
  }

  lemma BareAlternativesWords()
    ensures IsWord("ACTED_IN") && IsWord("DIRECTED") && IsWord("PRODUCED")
  {
  }

  /** Several alternatives without their own colon are accepted: the type used
      in the usage example kept in comments at the end of queryBuilder.js. */
  lemma DemoBareAlternatives()
    ensures Accepted(":ACTED_IN|DIRECTED|PRODUCED")
  {
    BareAlternativesWords();
    ThreeBareWords("ACTED_IN", "DIRECTED", "PRODUCED");
    BareAlternativesPieces();
  }
}
