/** The include closure of a Structurizr design: the graph its files span, and
    the validation that returns the sorted closure. */
module C4Closure {
  import opened Basics
  import opened NameOrder
  import opened C4Paths
  import opened IncludeGraph

  /** A line after the textual checks: ordinary, outside the accepted subset, a
      reference to local data, or an include. */
  datatype Line = Plain | Refused | Data(raw: string) | Include(raw: string)
  datatype Node = Regular(size: nat, lines: seq<Line>) | Folder | Special
  datatype Workspace = Workspace(scope: Path, nodes: map<Path, Node>)
  datatype Closure = Files(paths: seq<string>) | Rejected(problem: Problem<Path>)

  const FILE_BYTES := 16 * 1024 * 1024
  const C4_LIMITS := Limits(10_000, 256, 256 * 1024 * 1024)

  function StepOf(w: Workspace, p: Path, line: Line): (r: Step<Path>) {
    match line
    case Plain => Fine
    case Refused => Wrong
    case Data(raw) =>
      var target := Resolve(w.scope, p, raw);
      if target.Some? && target.value in w.nodes && !w.nodes[target.value].Special? then Fine else Wrong
    case Include(raw) =>
      match Resolve(w.scope, p, raw)
      case Some(q) => Next(q)
      case None => Wrong
  }

  predicate RegularFile(w: Workspace, p: Path) {
    p in w.nodes && w.nodes[p].Regular? && w.nodes[p].size <= FILE_BYTES
  }

  function Steps(w: Workspace, p: Path): (r: seq<Step<Path>>) {
    if RegularFile(w, p) then
      seq(|w.nodes[p].lines|, i requires 0 <= i < |w.nodes[p].lines| => StepOf(w, p, w.nodes[p].lines[i]))
    else []
  }

  function Size(w: Workspace, p: Path): (n: nat) {
    if RegularFile(w, p) then w.nodes[p].size else 0
  }

  function GraphOf(w: Workspace): (g: Graph<Path>) {
    Graph(p => RegularFile(w, p), p => Size(w, p), p => Steps(w, p))
  }

  // ------------------------------------------------- the graph, line by line

  /** A data line must name an existing node that is not special; an include must
      stay in the workspace. */
  ghost predicate LineFine(w: Workspace, p: Path, line: Line) {
    match line
    case Plain => true
    case Refused => false
    case Data(raw) => exists q :: Resolve(w.scope, p, raw) == Some(q) && q in w.nodes && !w.nodes[q].Special?
    case Include(raw) => exists q :: Resolve(w.scope, p, raw) == Some(q)
  }

  /** A regular file within the size limit whose every line is fine. */
  ghost predicate FileFine(w: Workspace, p: Path) {
    && p in w.nodes && w.nodes[p].Regular? && w.nodes[p].size <= FILE_BYTES
    && forall k :: 0 <= k < |w.nodes[p].lines| ==> LineFine(w, p, w.nodes[p].lines[k])
  }

  /** The k-th line of p includes q. */
  ghost predicate IncludedAt(w: Workspace, p: Path, k: nat, q: Path)
    requires p in w.nodes && w.nodes[p].Regular? && k < |w.nodes[p].lines|
  {
    w.nodes[p].lines[k].Include? && Resolve(w.scope, p, w.nodes[p].lines[k].raw) == Some(q)
  }

  /** Some line of p includes q. */
  ghost predicate Included(w: Workspace, p: Path, q: Path) {
    RegularFile(w, p) && exists k: nat :: k < |w.nodes[p].lines| && IncludedAt(w, p, k, q)
  }

  /** The graph has one step for each line, in line order. */
  lemma StepsExact(w: Workspace, p: Path, k: nat)
    requires RegularFile(w, p) && k < |w.nodes[p].lines|
    ensures |GraphOf(w).steps(p)| == |w.nodes[p].lines|
    ensures GraphOf(w).steps(p)[k] == Wrong <==> !LineFine(w, p, w.nodes[p].lines[k])
    ensures forall q :: GraphOf(w).steps(p)[k] == Next(q) <==> IncludedAt(w, p, k, q)
  {
  }

  lemma EdgeExact(w: Workspace, p: Path, q: Path)
    ensures Edge(GraphOf(w), p, q) <==> Included(w, p, q)
  {
    var steps := GraphOf(w).steps(p);
    if Edge(GraphOf(w), p, q) {
      var k: nat :| k < |steps| && steps[k] == Next(q);
      StepsExact(w, p, k);
    }
    if Included(w, p, q) {
      var k: nat :| k < |w.nodes[p].lines| && IncludedAt(w, p, k, q);
      StepsExact(w, p, k);
      assert steps[k] == Next(q);
    }
  }

  lemma UsableExact(w: Workspace, p: Path)
    ensures Usable(GraphOf(w), p) <==> FileFine(w, p)
  {
    if RegularFile(w, p) {
      var steps := GraphOf(w).steps(p);
      forall k: nat | k < |w.nodes[p].lines| ensures |steps| == |w.nodes[p].lines| && (steps[k] == Wrong <==> !LineFine(w, p, w.nodes[p].lines[k])) {
        StepsExact(w, p, k);
      }
      if Wrong in steps {
        var k :| 0 <= k < |steps| && steps[k] == Wrong;
        assert !LineFine(w, p, w.nodes[p].lines[k]);
      } else {
        assert forall k :: 0 <= k < |steps| ==> steps[k] in steps;
      }
    }
  }

  /** Includes from the entry on, one after the other. */
  ghost predicate IncludePath(w: Workspace, entry: Path, s: seq<Path>) {
    s != [] && s[0] == entry && forall i: nat :: i + 1 < |s| ==> Included(w, s[i], s[i + 1])
  }

  lemma {:induction false} ChainExact(w: Workspace, entry: Path, s: seq<Path>)
    ensures Chain(GraphOf(w), entry, s) <==> IncludePath(w, entry, s)
    decreases |s|
  {
    if |s| > 1 {
      var front := s[..|s| - 1];
      ChainExact(w, entry, front);
      EdgeExact(w, s[|s| - 2], s[|s| - 1]);
      if IncludePath(w, entry, s) {
        forall i: nat | i + 1 < |front| ensures Included(w, front[i], front[i + 1]) { assert Included(w, s[i], s[i + 1]); }
      }
      if Chain(GraphOf(w), entry, s) {
        forall i: nat | i + 1 < |s| ensures Included(w, s[i], s[i + 1]) {
          if i + 1 < |front| { assert Included(w, front[i], front[i + 1]); }
        }
      }
    }
  }

  /** The entry includes p, directly or not, or is p. */
  ghost predicate InDesign(w: Workspace, entry: Path, p: Path) {
    exists s :: IncludePath(w, entry, s) && s[|s| - 1] == p
  }

  lemma ReachableExact(w: Workspace, entry: Path, p: Path)
    ensures Reachable(GraphOf(w), entry, p) <==> InDesign(w, entry, p)
  {
    if Reachable(GraphOf(w), entry, p) {
      var s :| Chain(GraphOf(w), entry, s) && s[|s| - 1] == p;
      ChainExact(w, entry, s);
    }
    if InDesign(w, entry, p) {
      var s :| IncludePath(w, entry, s) && s[|s| - 1] == p;
      ChainExact(w, entry, s);
    }
  }

  /** Different regular files of the design. */
  ghost predicate DesignFiles(w: Workspace, entry: Path, s: seq<Path>) {
    Distinct(s) && forall i :: 0 <= i < |s| ==> InDesign(w, entry, s[i]) && RegularFile(w, s[i])
  }

  /** The sizes of the nodes, added up. */
  function NodeBytes(w: Workspace, s: seq<Path>): nat
    requires forall i :: 0 <= i < |s| ==> RegularFile(w, s[i])
  {
    if s == [] then 0 else assert RegularFile(w, s[0]); w.nodes[s[0]].size + NodeBytes(w, s[1..])
  }

  lemma {:induction false} NodeBytesExact(w: Workspace, s: seq<Path>)
    requires forall i :: 0 <= i < |s| ==> RegularFile(w, s[i])
    ensures Bytes(GraphOf(w).size, s) == NodeBytes(w, s)
  {
    if s != [] {
      NodeBytesExact(w, s[1..]);
      BytesConcat(GraphOf(w).size, [s[0]], s[1..]);
      assert [s[0]] + s[1..] == s;
      BytesGrow(GraphOf(w).size, [], s[0]);
      assert [] + [s[0]] == [s[0]];
    }
  }

  /** What is not a regular file weighs nothing. */
  lemma {:induction false} RegularPart(w: Workspace, s: seq<Path>) returns (t: seq<Path>)
    requires Distinct(s)
    ensures Distinct(t) && (forall p :: p in t <==> p in s && RegularFile(w, p))
    ensures Bytes(GraphOf(w).size, t) == Bytes(GraphOf(w).size, s)
    decreases |s|
  {
    if s == [] { return []; }
    var last := s[|s| - 1];
    t := RegularPart(w, s[..|s| - 1]);
    assert forall p :: p in s <==> p in s[..|s| - 1] || p == last;
    assert last !in s[..|s| - 1];
    if RegularFile(w, last) {
      BytesGrow(GraphOf(w).size, t, last);
      t := t + [last];
    }
  }

  /** What an accepted design is, over nodes and lines: no include path repeats a
      file, every file on one is fine, and the files and their sizes are within the
      limits. */
  ghost predicate DesignFits(w: Workspace, entry: Path, lim: Limits) {
    && (forall s :: IncludePath(w, entry, s) ==> Distinct(s) && FileFine(w, s[|s| - 1]))
    && (forall s :: DesignFiles(w, entry, s) ==> |s| <= lim.files && NodeBytes(w, s) <= lim.totalBytes)
  }

  /** What a rejection shows, in the same terms. */
  ghost predicate ProblemShown(w: Workspace, entry: Path, lim: Limits, problem: Problem<Path>) {
    match problem
    case TooDeep => Real(GraphOf(w), lim, entry, TooDeep)
    case Cycle => exists s :: IncludePath(w, entry, s) && !Distinct(s)
    case TooManyFiles => exists s :: Distinct(s) && |s| > lim.files && forall i :: 0 <= i < |s| ==> InDesign(w, entry, s[i])
    case TooManyBytes => exists s :: DesignFiles(w, entry, s) && NodeBytes(w, s) > lim.totalBytes
    case Unusable(p) => InDesign(w, entry, p) && !FileFine(w, p)
  }

  lemma AcceptedPath(w: Workspace, entry: Path, lim: Limits, s: seq<Path>)
    requires Accepts(GraphOf(w), lim, entry) && IncludePath(w, entry, s)
    ensures Distinct(s) && FileFine(w, s[|s| - 1])
  {
    var g := GraphOf(w);
    ChainExact(w, entry, s);
    assert !Real(g, lim, entry, Cycle) && !Real(g, lim, entry, Unusable(s[|s| - 1]));
    assert Reachable(g, entry, s[|s| - 1]);
    UsableExact(w, s[|s| - 1]);
  }

  lemma AcceptedFits(w: Workspace, entry: Path, lim: Limits)
    requires Accepts(GraphOf(w), lim, entry)
    ensures DesignFits(w, entry, lim)
  {
    var g := GraphOf(w);
    forall s | IncludePath(w, entry, s) ensures Distinct(s) && FileFine(w, s[|s| - 1]) {
      AcceptedPath(w, entry, lim, s);
    }
    forall s | DesignFiles(w, entry, s) ensures |s| <= lim.files && NodeBytes(w, s) <= lim.totalBytes {
      forall p | p in s ensures p in Found(g, entry) { ReachableExact(w, entry, p); }
      assert Among(Found(g, entry), s);
      assert !Real(g, lim, entry, TooManyFiles) && !Real(g, lim, entry, TooManyBytes);
      NodeBytesExact(w, s);
    }
  }

  lemma RealShown(w: Workspace, entry: Path, lim: Limits, problem: Problem<Path>)
    requires Real(GraphOf(w), lim, entry, problem)
    ensures ProblemShown(w, entry, lim, problem)
  {
    var g := GraphOf(w);
    match problem {
      case TooDeep =>
      case Cycle =>
        var s :| Chain(g, entry, s) && !Distinct(s);
        ChainExact(w, entry, s);
      case TooManyFiles =>
        var s :| Among(Found(g, entry), s) && |s| > lim.files;
        forall i | 0 <= i < |s| ensures InDesign(w, entry, s[i]) {
          assert s[i] in s && s[i] in Found(g, entry);
          ReachableExact(w, entry, s[i]);
        }
      case TooManyBytes =>
        var s :| Among(Found(g, entry), s) && Bytes(g.size, s) > lim.totalBytes;
        var t := RegularPart(w, s);
        forall i | 0 <= i < |t| ensures InDesign(w, entry, t[i]) && RegularFile(w, t[i]) {
          assert t[i] in t;
          ReachableExact(w, entry, t[i]);
        }
        NodeBytesExact(w, t);
      case Unusable(p) =>
        ReachableExact(w, entry, p);
        UsableExact(w, p);
    }
  }

  /** Accepted over nodes and lines, but for the nesting. */
  lemma FitsAccepted(w: Workspace, entry: Path, lim: Limits)
    requires DesignFits(w, entry, lim) && !Real(GraphOf(w), lim, entry, TooDeep)
    ensures Accepts(GraphOf(w), lim, entry)
  {
    forall problem: Problem<Path> ensures !Real(GraphOf(w), lim, entry, problem) {
      FitsUnshown(w, entry, lim, problem);
      if Real(GraphOf(w), lim, entry, problem) { RealShown(w, entry, lim, problem); }
    }
  }

  lemma FitsUnshown(w: Workspace, entry: Path, lim: Limits, problem: Problem<Path>)
    requires DesignFits(w, entry, lim)
    ensures !problem.TooDeep? ==> !ProblemShown(w, entry, lim, problem)
  {
    forall s | Distinct(s) && forall i :: 0 <= i < |s| ==> InDesign(w, entry, s[i]) ensures DesignFiles(w, entry, s) {
      forall i | 0 <= i < |s| ensures RegularFile(w, s[i]) {
        var chain :| IncludePath(w, entry, chain) && chain[|chain| - 1] == s[i];
        assert FileFine(w, chain[|chain| - 1]);
      }
    }
  }

  /** The verdict is exact: a design is accepted if and only if no refusal has a
      reason, so its include graph is acyclic, its files are usable, the limits
      hold and no file that includes something is first met at the nesting
      limit. The closure is the sorted text of exactly the reachable files. */
  method Validate(w: Workspace, entry: Path, lim: Limits) returns (r: Closure)
    ensures r.Files? <==> Accepts(GraphOf(w), lim, entry)
    ensures r.Files? <==> DesignFits(w, entry, lim) && !Real(GraphOf(w), lim, entry, TooDeep)
    ensures r.Rejected? ==> Real(GraphOf(w), lim, entry, r.problem) && ProblemShown(w, entry, lim, r.problem)
    ensures r.Files? ==> StrictlySorted(r.paths)
    ensures r.Files? ==> forall p :: InDesign(w, entry, p) ==> Text(p) in r.paths
    ensures r.Files? ==> forall t :: t in r.paths ==> exists p :: t == Text(p) && InDesign(w, entry, p)
  {
    var g := GraphOf(w);
    var walker := new Walker(g, lim, entry);
    var err := walker.Visit(entry, 1, [], []);
    if err.Some? {
      assert Real(g, lim, entry, err.value);
      RealShown(w, entry, lim, err.value);
      if DesignFits(w, entry, lim) && !Real(g, lim, entry, TooDeep) { FitsAccepted(w, entry, lim); }
      return Rejected(err.value);
    }
    var order := walker.closure;
    forall problem: Problem<Path> ensures !Real(g, lim, entry, problem) {
      SettledIsClear(g, lim, entry, order, problem);
    }
    AcceptedFits(w, entry, lim);
    forall p ensures p in order <==> InDesign(w, entry, p) {
      SettledIsClosure(g, entry, order, p);
      ReachableExact(w, entry, p);
    }
    var paths := SortNames(set p | p in order :: Text(p));
    assert forall t :: t in paths <==> t in Elements(paths);
    return Files(paths);
  }

  /** The validation at the limits of the tool. */
  method ValidateClosure(w: Workspace, entry: Path) returns (r: Closure)
    ensures r.Files? <==> Accepts(GraphOf(w), C4_LIMITS, entry)
    ensures r.Files? <==> DesignFits(w, entry, C4_LIMITS) && !Real(GraphOf(w), C4_LIMITS, entry, TooDeep)
  {
    r := Validate(w, entry, C4_LIMITS);
  }

  /** Every file of a chain is clean, and all but the entry lie in the workspace. */
  lemma {:induction false} ReachableInScope(w: Workspace, entry: Path, s: seq<Path>)
    requires CleanPath(entry) && Chain(GraphOf(w), entry, s)
    ensures CleanPath(s[|s| - 1]) && (|s| > 1 || w.scope <= entry ==> w.scope <= s[|s| - 1])
    decreases |s|
  {
    if |s| > 1 {
      var front, last := s[..|s| - 1], s[|s| - 1];
      ReachableInScope(w, entry, front);
      StepInScope(w, front[|front| - 1], last);
    }
  }

  lemma StepInScope(w: Workspace, p: Path, q: Path)
    requires CleanPath(p) && Edge(GraphOf(w), p, q)
    ensures CleanPath(q) && w.scope <= q
  {
    var steps := Steps(w, p);
    assert Next(q) in steps;
    var i :| 0 <= i < |steps| && steps[i] == Next(q);
    ResolveInScope(w.scope, p, w.nodes[p].lines[i].raw);
  }
}
