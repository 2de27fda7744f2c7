/** Churn between a committed oracle table and a fresh one: new, deleted and
    modified stable ids, and pairs shaped like a rename. */
module OracleDiff {
  import opened Basics
  import opened NameOrder

  /** A row without its stable id: the sequential test id is not content. */
  datatype OracleRow = OracleRow(testID: string, content: string)
  type Rows = map<string, OracleRow>

  datatype Line =
    | NewOracle
    | Renamed(was: string, id: string)
    | New(id: string, testID: string)
    | Deleted(id: string)
    | Modified(id: string, testID: string)

  // ---------------------------------------------------------------- what churn is

  function Added(prior: Rows, render: Rows): (r: set<string>) {
    set id | id in render && id !in prior
  }

  function Gone(prior: Rows, render: Rows): (r: set<string>) {
    set id | id in prior && id !in render
  }

  function Changed(prior: Rows, render: Rows): (r: set<string>) {
    set id | id in prior && id in render && prior[id].content != render[id].content
  }

  /** The only added id with its content. */
  ghost predicate Sole(prior: Rows, render: Rows, id: string) {
    && id in Added(prior, render)
    && forall other :: other in Added(prior, render) && render[other].content == render[id].content ==> other == id
  }

  ghost predicate Matches(prior: Rows, render: Rows, was: string, id: string) {
    was in Gone(prior, render) && id in render && prior[was].content == render[id].content
  }

  /** A sole added id pairs with the first deleted id of the same content. */
  ghost predicate Pair(prior: Rows, render: Rows, was: string, id: string) {
    && Sole(prior, render, id) && Matches(prior, render, was, id)
    && forall other :: Matches(prior, render, other, id) && other != was ==> Less(was, other)
  }

  /** The lines that may be reported. */
  ghost predicate Truthful(prior: Rows, render: Rows, line: Line) {
    match line
    case NewOracle => false
    case Renamed(was, id) => Pair(prior, render, was, id)
    case New(id, testID) => id in Added(prior, render) && testID == render[id].testID && forall was :: !Pair(prior, render, was, id)
    case Deleted(id) => id in Gone(prior, render) && forall now :: !Pair(prior, render, id, now)
    case Modified(id, testID) => id in Changed(prior, render) && testID == render[id].testID
  }

  function Group(line: Line): (g: nat) {
    match line
    case NewOracle => 0
    case Renamed(_, _) => 1
    case New(_, _) => 1
    case Deleted(_) => 2
    case Modified(_, _) => 3
  }

  function Subject(line: Line): (id: string) {
    if line.NewOracle? then "" else line.id
  }

  /** Added ids first, then deleted, then modified ones, each by id. */
  ghost predicate Ordered(lines: seq<Line>) {
    forall i, j :: 0 <= i < j < |lines| ==>
      Group(lines[i]) < Group(lines[j]) || (Group(lines[i]) == Group(lines[j]) && Less(Subject(lines[i]), Subject(lines[j])))
  }

  /** Exactly the truthful lines, in order. */
  ghost predicate Report(prior: Rows, render: Rows, lines: seq<Line>) {
    Ordered(lines) && forall line :: line in lines <==> Truthful(prior, render, line)
  }

  // ---------------------------------------------------------------- the classifier

  function IdsWith(render: Rows, ids: seq<string>, content: string): (r: seq<string>)
    requires forall id :: id in ids ==> id in render
  {
    if ids == [] then [] else
      var front, last := ids[..|ids| - 1], ids[|ids| - 1];
      IdsWith(render, front, content) + if render[last].content == content then [last] else []
  }

  lemma {:induction false} IdsWithMembers(render: Rows, ids: seq<string>, content: string)
    requires forall id :: id in ids ==> id in render
    ensures forall id :: id in IdsWith(render, ids, content) <==> id in ids && render[id].content == content
  {
    if ids != [] {
      IdsWithMembers(render, ids[..|ids| - 1], content);
      assert ids == ids[..|ids| - 1] + [ids[|ids| - 1]];
    }
  }

  lemma {:induction false} IdsWithDistinct(render: Rows, ids: seq<string>, content: string)
    requires StrictlySorted(ids) && forall id :: id in ids ==> id in render
    ensures StrictlySorted(IdsWith(render, ids, content))
  {
    if ids != [] {
      var front, last := ids[..|ids| - 1], ids[|ids| - 1];
      IdsWithDistinct(render, front, content);
      IdsWithMembers(render, front, content);
      forall id | id in front ensures Less(id, last) {
        var k :| 0 <= k < |front| && front[k] == id;
        assert Less(ids[k], ids[|ids| - 1]);
      }
    }
  }

  /** One candidate means the added id is the sole one with the content. */
  lemma SoleCandidate(prior: Rows, render: Rows, added: seq<string>, id: string)
    requires StrictlySorted(added) && (forall x :: x in added <==> x in Added(prior, render)) && id in added
    ensures |IdsWith(render, added, render[id].content)| == 1 <==> Sole(prior, render, id)
    ensures |IdsWith(render, added, render[id].content)| == 1 ==> IdsWith(render, added, render[id].content)[0] == id
  {
    var c := IdsWith(render, added, render[id].content);
    IdsWithMembers(render, added, render[id].content);
    IdsWithDistinct(render, added, render[id].content);
    assert id in c;
    if |c| != 1 {
      assert |c| >= 2 && c[0] in c && c[1] in c;
      LessTrichotomy(c[0], c[1]);
    }
  }

  function Lookup(m: map<string, seq<string>>, c: string): (r: seq<string>) {
    if c in m then m[c] else []
  }

  lemma IdsWithGrows(render: Rows, ids: seq<string>, i: nat, content: string)
    requires i < |ids| && forall id :: id in ids ==> id in render
    ensures IdsWith(render, ids[..i + 1], content)
      == IdsWith(render, ids[..i], content) + if render[ids[i]].content == content then [ids[i]] else []
  {
    assert ids[..i + 1][..i] == ids[..i];
  }

  method CandidatesByContent(render: Rows, added: seq<string>) returns (byContent: map<string, seq<string>>)
    requires forall x :: x in added ==> x in render
    ensures forall c :: Lookup(byContent, c) == IdsWith(render, added, c)
  {
    byContent := map[];
    for i := 0 to |added|
      invariant forall c :: Lookup(byContent, c) == IdsWith(render, added[..i], c)
    {
      var id := added[i];
      var c := render[id].content;
      ghost var previous := byContent;
      byContent := byContent[c := Lookup(byContent, c) + [id]];
      forall x ensures Lookup(byContent, x) == IdsWith(render, added[..i + 1], x) {
        IdsWithGrows(render, added, i, x);
        assert x != c ==> Lookup(byContent, x) == Lookup(previous, x);
      }
    }
    assert added[..|added|] == added;
  }

  method FindRenames(prior: Rows, render: Rows, added: seq<string>, deleted: seq<string>) returns (renameOf: map<string, string>)
    requires StrictlySorted(added) && forall x :: x in added <==> x in Added(prior, render)
    requires StrictlySorted(deleted) && forall x :: x in deleted <==> x in Gone(prior, render)
    ensures forall id, was :: (id in renameOf && renameOf[id] == was) <==> Pair(prior, render, was, id)
  {
    assert forall x :: x in added ==> x in render;
    var byContent := CandidatesByContent(render, added);
    renameOf := map[];
    for i := 0 to |deleted|
      invariant forall id :: id in renameOf ==> FirstOf(prior, render, deleted[..i], renameOf[id], id)
      invariant forall id, j :: 0 <= j < i && Sole(prior, render, id) && Matches(prior, render, deleted[j], id) ==> id in renameOf
    {
      assert deleted[i] in deleted;
      ghost var seen, previous := deleted[..i], renameOf;
      renameOf := Consider(prior, render, added, byContent, renameOf, deleted[i]);
      forall id | id in renameOf ensures FirstOf(prior, render, deleted[..i + 1], renameOf[id], id) {
        FirstStays(prior, render, deleted, i, renameOf[id], id);
      }
    }
    assert deleted[..|deleted|] == deleted;
    forall id, was ensures (id in renameOf && renameOf[id] == was) <==> Pair(prior, render, was, id) {
      RenamesArePairs(prior, render, deleted, renameOf, was, id);
    }
  }

  /** One deleted id takes the sole candidate with its content, if still free. */
  method Consider(prior: Rows, render: Rows, added: seq<string>, byContent: map<string, seq<string>>, renameOf: map<string, string>, was: string)
    returns (r: map<string, string>)
    requires StrictlySorted(added) && forall x :: x in added <==> x in Added(prior, render)
    requires (forall x :: x in added ==> x in render) && forall c :: Lookup(byContent, c) == IdsWith(render, added, c)
    requires was in Gone(prior, render)
    ensures forall id :: Sole(prior, render, id) && Matches(prior, render, was, id) ==> id in r
    ensures forall id :: id in renameOf ==> id in r && r[id] == renameOf[id]
    ensures forall id :: id in r && id !in renameOf ==> r[id] == was && Sole(prior, render, id) && Matches(prior, render, was, id)
  {
    r := renameOf;
    var c := prior[was].content;
    forall id | Sole(prior, render, id) && render[id].content == c ensures Lookup(byContent, c) == [id] {
      assert id in added;
      SoleCandidate(prior, render, added, id);
    }
    var candidates := Lookup(byContent, c);
    if |candidates| == 1 {
      var id := candidates[0];
      IdsWithMembers(render, added, c);
      assert id in candidates;
      SoleCandidate(prior, render, added, id);
      if id !in renameOf {
        r := renameOf[id := was];
      }
    }
  }

  lemma FirstStays(prior: Rows, render: Rows, deleted: seq<string>, i: nat, was: string, id: string)
    requires i < |deleted|
    requires || FirstOf(prior, render, deleted[..i], was, id)
             || (was == deleted[i] && Sole(prior, render, id) && Matches(prior, render, was, id)
                 && forall j :: 0 <= j < i ==> !Matches(prior, render, deleted[j], id))
    ensures FirstOf(prior, render, deleted[..i + 1], was, id)
  {
    var more := deleted[..i + 1];
    if FirstOf(prior, render, deleted[..i], was, id) {
      var k :| 0 <= k < i && deleted[..i][k] == was && forall j :: 0 <= j < k ==> !Matches(prior, render, deleted[..i][j], id);
      assert more[k] == was;
      forall j | 0 <= j < k ensures !Matches(prior, render, more[j], id) { assert more[j] == deleted[..i][j]; }
    } else {
      assert more[i] == was;
      forall j | 0 <= j < i ensures !Matches(prior, render, more[j], id) { assert more[j] == deleted[j]; }
    }
  }

  /** The first of the listed deleted ids that matches a sole added id. */
  ghost predicate FirstOf(prior: Rows, render: Rows, deleted: seq<string>, was: string, id: string) {
    && Sole(prior, render, id) && Matches(prior, render, was, id)
    && exists k :: 0 <= k < |deleted| && deleted[k] == was && forall j :: 0 <= j < k ==> !Matches(prior, render, deleted[j], id)
  }

  lemma RenamesArePairs(prior: Rows, render: Rows, deleted: seq<string>, renameOf: map<string, string>, was: string, id: string)
    requires StrictlySorted(deleted) && forall x :: x in deleted <==> x in Gone(prior, render)
    requires forall x :: x in renameOf ==> FirstOf(prior, render, deleted, renameOf[x], x)
    requires forall x, j :: 0 <= j < |deleted| && Sole(prior, render, x) && Matches(prior, render, deleted[j], x) ==> x in renameOf
    ensures (id in renameOf && renameOf[id] == was) <==> Pair(prior, render, was, id)
  {
    assert Pair(prior, render, was, id) ==> was in deleted;
    if id in renameOf {
      FirstIsPair(prior, render, deleted, renameOf[id], id);
      if Pair(prior, render, was, id) { PairUnique(prior, render, renameOf[id], was, id); }
    }
  }

  lemma FirstIsPair(prior: Rows, render: Rows, deleted: seq<string>, was: string, id: string)
    requires StrictlySorted(deleted) && forall x :: x in deleted <==> x in Gone(prior, render)
    requires FirstOf(prior, render, deleted, was, id)
    ensures Pair(prior, render, was, id)
  {
    var k :| 0 <= k < |deleted| && deleted[k] == was && forall j :: 0 <= j < k ==> !Matches(prior, render, deleted[j], id);
    forall other | Matches(prior, render, other, id) && other != was ensures Less(was, other) {
      assert other in deleted;
      var j :| 0 <= j < |deleted| && deleted[j] == other;
    }
  }

  lemma PairUnique(prior: Rows, render: Rows, a: string, b: string, id: string)
    requires Pair(prior, render, a, id) && Pair(prior, render, b, id)
    ensures a == b
  {
    LessTrichotomy(a, b);
  }

  /** Both ways round: a deleted id is paired with at most one added id. */
  lemma PairInjective(prior: Rows, render: Rows, was: string, a: string, b: string)
    requires Pair(prior, render, was, a) && Pair(prior, render, was, b)
    ensures a == b
  {
    assert render[a].content == render[b].content;
  }

  /** Counts and collects the lines, as the emitter does. */
  method Diff(baseline: Option<Rows>, render: Rows) returns (lines: seq<Line>)
    ensures baseline.None? ==> lines == [NewOracle]
    ensures baseline.Some? ==> Report(baseline.value, render, lines)
  {
    if baseline.None? { return [NewOracle]; }
    var prior := baseline.value;
    var added := SortNames(Added(prior, render));
    var deleted := SortNames(Gone(prior, render));
    var modified := SortNames(Changed(prior, render));
    assert forall x :: x in added <==> x in Elements(added);
    assert forall x :: x in deleted <==> x in Elements(deleted);
    assert forall x :: x in modified <==> x in Elements(modified);
    var renameOf := FindRenames(prior, render, added, deleted);
    var a := AddedLines(prior, render, added, renameOf);
    var d := DeletedLines(prior, render, deleted, renameOf);
    var m := ModifiedLines(prior, render, modified);
    lines := a + d + m;
    assert forall line :: line in lines <==> line in a || line in d || line in m;
  }

  ghost predicate OfGroup(lines: seq<Line>, g: nat) {
    forall i :: 0 <= i < |lines| ==> Group(lines[i]) == g
  }

  method AddedLines(prior: Rows, render: Rows, added: seq<string>, renameOf: map<string, string>) returns (lines: seq<Line>)
    requires StrictlySorted(added) && forall x :: x in added <==> x in Added(prior, render)
    requires forall id, was :: (id in renameOf && renameOf[id] == was) <==> Pair(prior, render, was, id)
    ensures Ordered(lines) && OfGroup(lines, 1)
    ensures forall line :: line in lines <==> Group(line) == 1 && Truthful(prior, render, line)
  {
    lines := [];
    for i := 0 to |added|
      invariant |lines| == i
      invariant forall k :: 0 <= k < i ==> Group(lines[k]) == 1 && Subject(lines[k]) == added[k] && Truthful(prior, render, lines[k])
    {
      var id := added[i];
      assert id in added;
      if id in renameOf {
        lines := lines + [Renamed(renameOf[id], id)];
      } else {
        lines := lines + [New(id, render[id].testID)];
      }
    }
    forall line | Group(line) == 1 && Truthful(prior, render, line) ensures line in lines {
      var k :| 0 <= k < |added| && added[k] == line.id;
      SameAdded(prior, render, line, lines[k]);
    }
  }

  /** An added id has just one truthful line. */
  lemma SameAdded(prior: Rows, render: Rows, a: Line, b: Line)
    requires Group(a) == 1 && Group(b) == 1 && a.id == b.id && Truthful(prior, render, a) && Truthful(prior, render, b)
    ensures a == b
  {
    if a.Renamed? && b.Renamed? { PairUnique(prior, render, a.was, b.was, a.id); }
  }

  method DeletedLines(prior: Rows, render: Rows, deleted: seq<string>, renameOf: map<string, string>) returns (lines: seq<Line>)
    requires StrictlySorted(deleted) && forall x :: x in deleted <==> x in Gone(prior, render)
    requires forall id, was :: (id in renameOf && renameOf[id] == was) <==> Pair(prior, render, was, id)
    ensures Ordered(lines) && OfGroup(lines, 2)
    ensures forall line :: line in lines <==> Group(line) == 2 && Truthful(prior, render, line)
  {
    lines := [];
    for i := 0 to |deleted|
      invariant Ordered(lines)
      invariant forall line :: line in lines <==> line.Deleted? && line.id in deleted[..i] && Truthful(prior, render, line)
    {
      var id := deleted[i];
      assert deleted[..i + 1] == deleted[..i] + [id];
      if !(exists k :: k in renameOf && renameOf[k] == id) {
        forall line | line in lines ensures Less(line.id, id) {
          var k :| 0 <= k < i && deleted[k] == line.id;
        }
        assert Truthful(prior, render, Deleted(id));
        lines := lines + [Deleted(id)];
      } else {
        ghost var now :| now in renameOf && renameOf[now] == id;
        assert Pair(prior, render, renameOf[now], now);
      }
    }
    assert deleted[..|deleted|] == deleted;
  }

  method ModifiedLines(prior: Rows, render: Rows, modified: seq<string>) returns (lines: seq<Line>)
    requires StrictlySorted(modified) && forall x :: x in modified <==> x in Changed(prior, render)
    ensures Ordered(lines) && OfGroup(lines, 3)
    ensures forall line :: line in lines <==> Group(line) == 3 && Truthful(prior, render, line)
  {
    lines := [];
    for i := 0 to |modified|
      invariant |lines| == i
      invariant forall k :: 0 <= k < i ==> modified[k] in render && lines[k] == Modified(modified[k], render[modified[k]].testID)
    {
      assert modified[i] in modified;
      lines := lines + [Modified(modified[i], render[modified[i]].testID)];
    }
    forall line | Group(line) == 3 && Truthful(prior, render, line) ensures line in lines {
      var k :| 0 <= k < |modified| && modified[k] == line.id;
      assert lines[k] == line;
    }
  }

  // ---------------------------------------------------------------- what a report means

  /** The line speaks of this added, deleted or modified id. */
  ghost predicate Mentions(line: Line, g: nat, id: string) {
    match g
    case 1 => Group(line) == 1 && line.id == id
    case 2 => line == Deleted(id) || (line.Renamed? && line.was == id)
    case _ => Group(line) == 3 && line.id == id
  }

  ghost predicate Churned(prior: Rows, render: Rows, g: nat, id: string) {
    match g
    case 1 => id in Added(prior, render)
    case 2 => id in Gone(prior, render)
    case _ => id in Changed(prior, render)
  }

  /** Every churned id is reported at exactly one place, and no other id is. */
  lemma ReportedOnce(prior: Rows, render: Rows, lines: seq<Line>, g: nat, id: string)
    requires Report(prior, render, lines) && 1 <= g <= 3
    ensures Churned(prior, render, g, id) <==> exists i :: 0 <= i < |lines| && Mentions(lines[i], g, id)
    ensures forall i, j :: 0 <= i < |lines| && 0 <= j < |lines| && Mentions(lines[i], g, id) && Mentions(lines[j], g, id) ==> i == j
  {
    if Churned(prior, render, g, id) {
      var line := LineFor(prior, render, g, id);
      var i :| 0 <= i < |lines| && lines[i] == line;
    }
    forall i | 0 <= i < |lines| && Mentions(lines[i], g, id) ensures Churned(prior, render, g, id) {
      assert lines[i] in lines;
    }
    forall i, j | 0 <= i < |lines| && 0 <= j < |lines| && Mentions(lines[i], g, id) && Mentions(lines[j], g, id) ensures i == j {
      assert lines[i] in lines && lines[j] in lines;
      SameLine(prior, render, lines[i], lines[j], g, id);
      OrderedDistinct(lines, i, j);
    }
  }

  lemma OrderedDistinct(lines: seq<Line>, i: nat, j: nat)
    requires Ordered(lines) && i < |lines| && j < |lines| && lines[i] == lines[j]
    ensures i == j
  {
    LessTrichotomy(Subject(lines[i]), Subject(lines[i]));
  }

  lemma LineFor(prior: Rows, render: Rows, g: nat, id: string) returns (line: Line)
    requires Churned(prior, render, g, id) && 1 <= g <= 3
    ensures Truthful(prior, render, line) && Mentions(line, g, id)
  {
    if g == 1 {
      if was :| Pair(prior, render, was, id) {
        line := Renamed(was, id);
      } else {
        line := New(id, render[id].testID);
      }
    } else if g == 2 {
      if now :| Pair(prior, render, id, now) {
        line := Renamed(id, now);
      } else {
        line := Deleted(id);
      }
    } else {
      line := Modified(id, render[id].testID);
    }
  }

  lemma SameLine(prior: Rows, render: Rows, a: Line, b: Line, g: nat, id: string)
    requires Truthful(prior, render, a) && Truthful(prior, render, b) && 1 <= g <= 3
    requires Mentions(a, g, id) && Mentions(b, g, id)
    ensures a == b
  {
    if g == 1 {
      SameAdded(prior, render, a, b);
    } else if g == 2 && a.Renamed? && b.Renamed? {
      PairInjective(prior, render, id, a.id, b.id);
    }
  }

  ghost predicate SameTable(prior: Rows, render: Rows) {
    prior.Keys == render.Keys && forall id :: id in prior ==> prior[id].content == render[id].content
  }

  lemma NothingToSay(prior: Rows, render: Rows)
    requires SameTable(prior, render)
    ensures forall line :: !Truthful(prior, render, line)
  {
    assert forall id :: id in prior <==> id in render;
    assert Added(prior, render) == {} && Gone(prior, render) == {} && Changed(prior, render) == {};
  }

  /** No line exactly when both tables hold the same ids with the same content. */
  lemma SilentMeansSame(prior: Rows, render: Rows, lines: seq<Line>)
    requires Report(prior, render, lines)
    ensures lines == [] <==> SameTable(prior, render)
  {
    assert lines != [] ==> lines[0] in lines;
    if SameTable(prior, render) { NothingToSay(prior, render); }
    if lines == [] {
      forall id ensures id in prior <==> id in render {
        ReportedOnce(prior, render, lines, 1, id);
        ReportedOnce(prior, render, lines, 2, id);
      }
      forall id | id in prior ensures prior[id].content == render[id].content {
        ReportedOnce(prior, render, lines, 3, id);
      }
    }
  }

  // ---------------------------------------------------------------- ambiguous deletions

  /** What the comment beside the pairing promises: a deleted row whose content
      another deleted row shares is not paired. */
  ghost predicate NoGuess(prior: Rows, render: Rows) {
    forall was, id, other :: Pair(prior, render, was, id) && Matches(prior, render, other, id) ==> other == was
  }

  /** Two deleted rows and exactly one added row share a content. */
  ghost predicate Ambiguous(prior: Rows, render: Rows) {
    exists id, a, b :: Sole(prior, render, id) && Matches(prior, render, a, id) && Matches(prior, render, b, id) && a != b
  }

  /** The loop pairs the first of them, so the promise holds exactly when there
      is no such content. */
  lemma NoGuessExact(prior: Rows, render: Rows)
    ensures NoGuess(prior, render) <==> !Ambiguous(prior, render)
  {
    if Ambiguous(prior, render) {
      var id, a, b :| Sole(prior, render, id) && Matches(prior, render, a, id) && Matches(prior, render, b, id) && a != b;
      var all := set x | x in Gone(prior, render) && Matches(prior, render, x, id);
      assert a in all;
      var first := Least(all);
      assert Pair(prior, render, first, id);
    }
  }

  lemma {:induction false} Least(names: set<string>) returns (first: string)
    requires names != {}
    ensures first in names && forall x :: x in names && x != first ==> Less(first, x)
    decreases |names|
  {
    first :| first in names;
    var rest := names - {first};
    if rest != {} {
      var other := Least(rest);
      LessTrichotomy(first, other);
      if Less(other, first) {
        first := other;
      } else {
        forall x | x in rest && x != other ensures Less(first, x) { LessTransitive(first, other, x); }
      }
    }
  }

  lemma GuessExample()
    ensures !NoGuess(map["a" := OracleRow("1", "x"), "b" := OracleRow("2", "x")], map["c" := OracleRow("1", "x")])
  {
    var prior := map["a" := OracleRow("1", "x"), "b" := OracleRow("2", "x")];
    var render := map["c" := OracleRow("1", "x")];
    assert Sole(prior, render, "c");
    assert Matches(prior, render, "a", "c") && Matches(prior, render, "b", "c");
    NoGuessExact(prior, render);
  }
}
