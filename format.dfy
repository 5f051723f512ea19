/**
 * The text `SimulationResult.format_output` produces (src/simulation.py): two lines,
 * each a heading followed by the positions joined by single spaces or by "none". Splitting
 * the text at its newline and at its spaces gives the lines and the position texts back.
 */
module OutputFormat {
  import opened Topology
  import opened Entities
  import opened Engine

  /** `s.split(c)`: the pieces of `s` between occurrences of `c`; there is always at least one. */
  function Split(s: string, c: char): (r: seq<string>)
    ensures |r| >= 1
  {
    if s == [] then [""]
    else
      var init := Split(s[..|s| - 1], c);
      var last := s[|s| - 1];
      if last == c then init + [""]
      else init[..|init| - 1] + [init[|init| - 1] + [last]]
  }

  /** One more character either closes the last piece (the separator) or extends it. */
  lemma SplitSnoc(s: string, x: char, c: char)
    ensures
      var init := Split(s, c);
      Split(s + [x], c) == if x == c then init + [""] else init[..|init| - 1] + [init[|init| - 1] + [x]]
  {
    assert (s + [x])[..|s|] == s;
  }

  /** Text free of the separator only extends the last piece. */
  lemma {:induction false} SplitAppendFree(a: string, b: string, c: char)
    requires c !in b
    ensures
      var sa := Split(a, c);
      Split(a + b, c) == sa[..|sa| - 1] + [sa[|sa| - 1] + b]
    decreases |b|
  {
    var sa := Split(a, c);
    if b == [] {
      assert a + b == a;
      assert sa[|sa| - 1] + b == sa[|sa| - 1];
      assert sa[..|sa| - 1] + [sa[|sa| - 1]] == sa;
    } else {
      var b' := b[..|b| - 1];
      var last := b[|b| - 1];
      SplitAppendFree(a, b', c);
      SplitSnoc(a + b', last, c);
      assert a + b == (a + b') + [last];
      assert sa[|sa| - 1] + b' + [last] == sa[|sa| - 1] + b;
    }
  }

  /** Splitting a join at its one-character separator gives the parts back. */
  lemma {:induction false} SplitJoin(parts: seq<string>, c: char)
    requires parts != [] && forall i :: 0 <= i < |parts| ==> c !in parts[i]
    ensures Split(Join([c], parts), c) == parts
    decreases |parts|
  {
    if |parts| == 1 {
      SplitAppendFree("", parts[0], c);
      assert "" + parts[0] == parts[0];
    } else {
      var init := parts[..|parts| - 1];
      SplitJoin(init, c);
      SplitJoinSnoc(init, parts[|parts| - 1], c);
      assert parts == init + [parts[|parts| - 1]];
    }
  }

  /** One more part, free of the separator, adds one more piece. */
  lemma SplitJoinSnoc(init: seq<string>, p: string, c: char)
    requires init != [] && c !in p && Split(Join([c], init), c) == init
    ensures Split(Join([c], init + [p]), c) == init + [p]
  {
    var j := Join([c], init);
    assert (init + [p])[..|init|] == init;
    assert Join([c], init + [p]) == (j + [c]) + p;
    SplitSnoc(j, c, c);
    SplitAppendFree(j + [c], p, c);
    assert "" + p == p;
  }

  /** A character absent from the separator and from every part is absent from the join. */
  lemma {:induction false} JoinFree(sep: string, parts: seq<string>, c: char)
    requires c !in sep && forall i :: 0 <= i < |parts| ==> c !in parts[i]
    ensures c !in Join(sep, parts)
    decreases |parts|
  {
    if |parts| > 1 {
      JoinFree(sep, parts[..|parts| - 1], c);
    }
  }

  /** A join of non-empty parts starts where its first part starts. */
  lemma {:induction false} JoinFirst(sep: string, parts: seq<string>)
    requires parts != [] && parts[0] != []
    ensures Join(sep, parts) != [] && Join(sep, parts)[0] == parts[0][0]
    decreases |parts|
  {
    if |parts| > 1 {
      JoinFirst(sep, parts[..|parts| - 1]);
    }
  }

  /** The positions part of a line: "(x,y)" texts joined by single spaces. */
  lemma PositionsJoined(ps: seq<Position>)
    requires ps != []
    ensures
      var j := Join(" ", PositionTexts(ps));
      j != [] && j[0] == '(' && '\n' !in j && Split(j, ' ') == PositionTexts(ps)
  {
    var texts := PositionTexts(ps);
    JoinFirst(" ", texts);
    JoinFree(" ", texts, '\n');
    SplitJoin(texts, ' ');
  }

  /** A line says "none" exactly when it lists no position. */
  lemma LineNone(heading: string, ps: seq<Position>)
    ensures PositionsLine(heading, ps) == heading + ": " + "none" <==> ps == []
  {
    if ps != [] {
      var j := Join(" ", PositionTexts(ps));
      PositionsJoined(ps);
      ConcatAt(heading + ": ", j);
      ConcatAt(heading + ": ", "none");
    }
  }

  /** The first character after a prefix. */
  lemma ConcatAt(prefix: string, rest: string)
    requires rest != []
    ensures |prefix + rest| > |prefix| && (prefix + rest)[|prefix|] == rest[0]
  {
  }

  /** After its heading and ": ", a non-empty line holds the position texts, separated by single spaces. */
  lemma LineFields(heading: string, ps: seq<Position>)
    requires ps != []
    ensures |PositionsLine(heading, ps)| > |heading| + 2
    ensures PositionsLine(heading, ps)[..|heading| + 2] == heading + ": "
    ensures Split(PositionsLine(heading, ps)[|heading| + 2..], ' ') == PositionTexts(ps)
  {
    var j := Join(" ", PositionTexts(ps));
    PositionsJoined(ps);
    assert PositionsLine(heading, ps) == (heading + ": ") + j;
    assert PositionsLine(heading, ps)[|heading| + 2..] == j;
  }

  /** A line holds no newline when its heading holds none. */
  lemma LineSingle(heading: string, ps: seq<Position>)
    requires '\n' !in heading
    ensures '\n' !in PositionsLine(heading, ps)
  {
    if ps != [] {
      PositionsJoined(ps);
    }
  }

  /** Neither heading holds a newline. */
  lemma HeadingsSingle()
    ensures '\n' !in ZombiesHeading && '\n' !in CreaturesHeading
  {
  }

  /** `format_output` writes exactly two lines: the zombies line first, then the creatures line. */
  lemma TextLines(r: SimulationResult)
    ensures Split(r.Text(), '\n') ==
      [PositionsLine(ZombiesHeading, ZombiePositions(r.zombies)),
       PositionsLine(CreaturesHeading, CreaturePositions(r.survivingCreatures))]
  {
    HeadingsSingle();
    LineSingle(ZombiesHeading, ZombiePositions(r.zombies));
    LineSingle(CreaturesHeading, CreaturePositions(r.survivingCreatures));
    SplitJoin([PositionsLine(ZombiesHeading, ZombiePositions(r.zombies)),
               PositionsLine(CreaturesHeading, CreaturePositions(r.survivingCreatures))], '\n');
  }

  /** Joining two parts puts the separator between them. */
  lemma JoinPair(sep: string, a: string, b: string)
    ensures Join(sep, [a, b]) == a + sep + b
  {
    assert [a, b][..1] == [a];
  }

  /** A result with no zombie and no survivor says "none" on both lines. */
  lemma TextEmpty(r: SimulationResult)
    requires r.zombies == [] && r.survivingCreatures == []
    ensures r.Text() == "zombies' positions: none" + "\n" + "creatures' positions: none"
  {
    var zl := PositionsLine(ZombiesHeading, ZombiePositions(r.zombies));
    var cl := PositionsLine(CreaturesHeading, CreaturePositions(r.survivingCreatures));
    JoinPair("\n", zl, cl);
    assert zl == "zombies' positions: none";
    assert cl == "creatures' positions: none";
  }
}
