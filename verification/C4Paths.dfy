/** Local include paths: the relative text of an `!include`, joined to the
    directory of the including file and cleaned, must stay in the workspace. */
module C4Paths {
  import opened Basics

  /** An absolute path as its components; the root is the empty sequence. */
  type Path = seq<string>

  predicate CleanName(c: string) {
    c != "" && c != "." && c != ".." && '/' !in c
  }

  predicate CleanPath(p: Path) {
    forall i :: 0 <= i < |p| ==> CleanName(p[i])
  }

  // ---------------------------------------------------------------- text

  function Split(s: string): (r: seq<string>)
    ensures |r| >= 1 && forall i :: 0 <= i < |r| ==> '/' !in r[i]
  {
    if s == "" then [""]
    else
      var rest := Split(s[1..]);
      if s[0] == '/' then [""] + rest else [[s[0]] + rest[0]] + rest[1..]
  }

  function Joined(p: Path): (s: string) {
    if p == [] then "" else if |p| == 1 then p[0] else p[0] + "/" + Joined(p[1..])
  }

  function Text(p: Path): (s: string) {
    "/" + Joined(p)
  }

  lemma {:induction false} SplitPlain(c: string)
    requires '/' !in c
    ensures Split(c) == [c]
  {
    if c != "" {
      SplitPlain(c[1..]);
      assert c == [c[0]] + c[1..];
    }
  }

  lemma {:induction false} SplitAtSlash(c: string, t: string)
    requires '/' !in c
    ensures Split(c + "/" + t) == [c] + Split(t)
  {
    var s := c + "/" + t;
    if c == "" {
      assert s[1..] == t;
    } else {
      SplitAtSlash(c[1..], t);
      assert s[1..] == c[1..] + "/" + t;
      assert [s[0]] + c[1..] == c;
    }
  }

  lemma {:induction false} SplitJoined(p: Path)
    requires p != [] && CleanPath(p)
    ensures Split(Joined(p)) == p
  {
    if |p| == 1 {
      SplitPlain(p[0]);
    } else {
      SplitJoined(p[1..]);
      SplitAtSlash(p[0], Joined(p[1..]));
    }
  }

  /** Clean paths with the same text are the same path. */
  lemma TextInjective(p: Path, q: Path)
    requires CleanPath(p) && CleanPath(q) && Text(p) == Text(q)
    ensures p == q
  {
    assert Joined(p) == Text(p)[1..] && Joined(q) == Text(q)[1..];
    assert Split("") == [""];
    if p != [] { SplitJoined(p); }
    if q != [] { SplitJoined(q); }
  }

  // ---------------------------------------------------------------- cleaning

  function Enter(base: Path, part: string): (r: Path) {
    if part == "" || part == "." then base
    else if part == ".." then (if base == [] then [] else base[..|base| - 1])
    else base + [part]
  }

  function Follow(base: Path, parts: seq<string>): (r: Path)
    decreases |parts|
  {
    if parts == [] then base else Follow(Enter(base, parts[0]), parts[1..])
  }

  function Dir(p: Path): (r: Path) {
    if p == [] then [] else p[..|p| - 1]
  }

  lemma {:induction false} FollowClean(base: Path, parts: seq<string>)
    requires CleanPath(base) && forall i :: 0 <= i < |parts| ==> '/' !in parts[i]
    ensures CleanPath(Follow(base, parts))
    decreases |parts|
  {
    if parts != [] { FollowClean(Enter(base, parts[0]), parts[1..]); }
  }

  lemma {:induction false} FollowDown(base: Path, p: Path)
    requires CleanPath(p)
    ensures Follow(base, p) == base + p
    decreases |p|
  {
    if p != [] {
      FollowDown(base + [p[0]], p[1..]);
      assert base + [p[0]] + p[1..] == base + p;
    }
  }

  // ---------------------------------------------------------------- resolution

  predicate Space(c: char) {
    c == ' ' || '\t' as int <= c as int <= '\r' as int
  }

  function TrimLeft(s: string): (r: string) {
    if s != "" && Space(s[0]) then TrimLeft(s[1..]) else s
  }

  function TrimRight(s: string): (r: string) {
    if s != "" && Space(s[|s| - 1]) then TrimRight(s[..|s| - 1]) else s
  }

  function Unquoted(s: string): (r: string) {
    if |s| >= 2 && (s[0] == '"' || s[0] == '\'') && s[|s| - 1] == s[0] then s[1..|s| - 1] else s
  }

  function RawName(raw: string): (r: string) {
    Unquoted(TrimRight(TrimLeft(raw)))
  }

  function Resolve(scope: Path, includer: Path, raw: string): (r: Option<Path>) {
    var name := RawName(raw);
    if name == "" || '\0' in name || '\r' in name || '\n' in name || name[0] == '/' then None
    else
      var candidate := Follow(Dir(includer), Split(name));
      if scope <= candidate then Some(candidate) else None
  }

  /** What is resolved lies in the scope and is a clean path. */
  lemma ResolveInScope(scope: Path, includer: Path, raw: string)
    requires CleanPath(includer) && Resolve(scope, includer, raw).Some?
    ensures scope <= Resolve(scope, includer, raw).value
    ensures CleanPath(Resolve(scope, includer, raw).value)
  {
    FollowClean(Dir(includer), Split(RawName(raw)));
  }

  function Ups(n: nat): (s: string) {
    if n == 0 then "" else "../" + Ups(n - 1)
  }

  lemma {:induction false} FollowUps(base: Path, n: nat, tail: string)
    requires n <= |base|
    ensures Follow(base, Split(Ups(n) + tail)) == Follow(base[..|base| - n], Split(tail))
    decreases n
  {
    if n == 0 {
      assert Ups(n) + tail == tail && base[..|base| - n] == base;
    } else {
      var up := base[..|base| - 1];
      FollowUp(base, Ups(n - 1) + tail);
      FollowUps(up, n - 1, tail);
      assert Ups(n) + tail == "../" + (Ups(n - 1) + tail);
      assert up[..|up| - (n - 1)] == base[..|base| - n];
    }
  }

  lemma FollowUp(base: Path, rest: string)
    requires base != []
    ensures Follow(base, Split("../" + rest)) == Follow(base[..|base| - 1], Split(rest))
  {
    assert "../" + rest == ".." + "/" + rest;
    SplitAtSlash("..", rest);
    assert Split("../" + rest)[1..] == Split(rest);
  }

  /** Relative text of a file as seen from another: climb to the root, descend. */
  function Relative(includer: Path, p: Path): (s: string) {
    "\"" + Ups(|Dir(includer)|) + Joined(p) + "\""
  }

  lemma {:induction false} UpsText(n: nat)
    ensures forall i :: 0 <= i < |Ups(n)| ==> Ups(n)[i] == '.' || Ups(n)[i] == '/'
    ensures n > 0 ==> Ups(n)[0] == '.'
  {
    if n > 0 { UpsText(n - 1); }
  }

  lemma {:induction false} JoinedText(p: Path, c: char)
    requires c != '/' && forall i :: 0 <= i < |p| ==> c !in p[i]
    ensures c !in Joined(p)
  {
    if |p| > 1 { JoinedText(p[1..], c); }
  }

  lemma JoinedStart(p: Path)
    requires p != [] && CleanPath(p)
    ensures Joined(p) != "" && Joined(p)[0] != '/'
  {
    assert p[0] != "" && p[0][0] != '/';
  }

  /** Nothing that the resolver refuses in a name. */
  predicate Printable(p: Path) {
    forall i :: 0 <= i < |p| ==> '\0' !in p[i] && '\r' !in p[i] && '\n' !in p[i]
  }

  /** A name that climbs k directories and descends along q means exactly the
      directory of the includer without its last k components, and then q; it is
      refused exactly when that leaves the workspace. */
  lemma ClimbResolves(scope: Path, includer: Path, raw: string, k: nat, q: Path)
    requires k <= |Dir(includer)| && q != [] && CleanPath(q) && Printable(q) && RawName(raw) == Ups(k) + Joined(q)
    ensures var target := Dir(includer)[..|Dir(includer)| - k] + q;
            Resolve(scope, includer, raw) == if scope <= target then Some(target) else None
  {
    UpsText(k);
    JoinedText(q, '\0');
    JoinedText(q, '\r');
    JoinedText(q, '\n');
    JoinedStart(q);
    FollowUps(Dir(includer), k, Joined(q));
    SplitJoined(q);
    FollowDown(Dir(includer)[..|Dir(includer)| - k], q);
  }

  /** A bare name, with or without blanks around it, is the file beside the
      includer. */
  lemma SiblingResolves(scope: Path, includer: Path, before: string, name: string, after: string)
    requires CleanName(name) && Printable([name]) && name[0] != '"' && name[0] != '\'' && !Space(name[0]) && !Space(name[|name| - 1])
    requires (forall i :: 0 <= i < |before| ==> Space(before[i])) && forall i :: 0 <= i < |after| ==> Space(after[i])
    ensures var target := Dir(includer) + [name];
            Resolve(scope, includer, before + name + after) == if scope <= target then Some(target) else None
  {
    TrimmedLeft(before, name + after);
    TrimmedRight(name, after);
    assert before + name + after == before + (name + after);
    assert Ups(0) + Joined([name]) == name;
    assert Dir(includer)[..|Dir(includer)| - 0] == Dir(includer);
    ClimbResolves(scope, includer, before + name + after, 0, [name]);
  }

  lemma {:induction false} TrimmedLeft(blanks: string, s: string)
    requires (forall i :: 0 <= i < |blanks| ==> Space(blanks[i])) && s != "" && !Space(s[0])
    ensures TrimLeft(blanks + s) == s
  {
    if blanks == "" {
      assert blanks + s == s;
    } else {
      TrimmedLeft(blanks[1..], s);
      assert (blanks + s)[1..] == blanks[1..] + s;
    }
  }

  lemma {:induction false} TrimmedRight(s: string, blanks: string)
    requires (forall i :: 0 <= i < |blanks| ==> Space(blanks[i])) && s != "" && !Space(s[|s| - 1])
    ensures TrimRight(s + blanks) == s
    decreases |blanks|
  {
    if blanks == "" {
      assert s + blanks == s;
    } else {
      var rest := blanks[..|blanks| - 1];
      TrimmedRight(s, rest);
      assert (s + blanks)[..|s + blanks| - 1] == s + rest;
    }
  }

  /** Any clean path in the scope can be named from any file, so the scope check
      refuses nothing but real escapes. */
  lemma EveryPathResolves(scope: Path, includer: Path, p: Path)
    requires scope <= p && CleanPath(p) && p != [] && Printable(p)
    ensures Resolve(scope, includer, Relative(includer, p)) == Some(p)
  {
    var name := Ups(|Dir(includer)|) + Joined(p);
    var raw := "\"" + Ups(|Dir(includer)|) + Joined(p) + "\"";
    assert !Space(raw[0]) && !Space(raw[|raw| - 1]);
    assert raw == "\"" + name + "\"" && RawName(raw) == name;
    ClimbResolves(scope, includer, raw, |Dir(includer)|, p);
    assert Dir(includer)[..0] + p == p;
  }
}
