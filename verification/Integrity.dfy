/** The structural-integrity model: relationship multiplicities, inverse
    exclusivity, unique attributes and singleton flags, and when the constraint
    set can be populated. */
module Integrity {
  import opened Basics

  datatype Card = ManyToOne | OneToOne | OneToMany | ManyToMany

  datatype Mult = One | Lone | AtLeastOne | Any

  /** resolveMult. */
  function ResolveMult(card: Card, mandatory: bool): Mult {
    if card.ManyToOne? || card.OneToOne? then (if mandatory then One else Lone)
    else if mandatory then AtLeastOne else Any
  }

  /** inverseLone. */
  predicate InverseLone(card: Card) {
    card.OneToOne? || card.OneToMany?
  }

  datatype Rel = Rel(from: string, to: string, card: Card, mandatory: bool)

  /** domainSize 0 stands for an unbounded value domain. */
  datatype Unique = Unique(entity: string, domainSize: nat)

  datatype Annotation = Annotation(entities: set<string>, rels: seq<Rel>, uniques: seq<Unique>, singletons: seq<string>)

  ghost predicate AnnotationOk(a: Annotation) {
    && (forall i :: 0 <= i < |a.rels| ==> a.rels[i].from in a.entities && a.rels[i].to in a.entities)
    && (forall i :: 0 <= i < |a.uniques| ==> a.uniques[i].entity in a.entities)
    && (forall i :: 0 <= i < |a.singletons| ==> a.singletons[i] in a.entities)
  }

  // ------------------------------------------------------------------ worlds

  /** Records per entity; one relation, value map or flag map per constraint. */
  datatype World = World(records: map<string, set<nat>>, links: seq<set<(nat, nat)>>, values: seq<map<nat, nat>>, flags: seq<map<nat, bool>>)

  function Targets(links: set<(nat, nat)>, x: nat): (r: set<nat>)
    ensures forall y :: y in r <==> (x, y) in links
  {
    set l | l in links && l.0 == x :: l.1
  }

  function Sources(links: set<(nat, nat)>, y: nat): (r: set<nat>)
    ensures forall x :: x in r <==> (x, y) in links
  {
    set l | l in links && l.1 == y :: l.0
  }

  predicate MultOk(m: Mult, n: nat) {
    match m
    case One => n == 1
    case Lone => n <= 1
    case AtLeastOne => n >= 1
    case Any => true
  }

  /** The field declaration and the Cardinality fact of one relationship. */
  ghost predicate RelOk(r: Rel, sources: set<nat>, targets: set<nat>, links: set<(nat, nat)>) {
    && (forall l :: l in links ==> l.0 in sources && l.1 in targets)
    && (forall x :: x in sources ==> MultOk(ResolveMult(r.card, r.mandatory), |Targets(links, x)|))
    && (InverseLone(r.card) ==> forall y :: y in targets ==> |Sources(links, y)| <= 1)
  }

  /** Some link leaves x. */
  predicate HasPartner(links: set<(nat, nat)>, x: nat) {
    exists l :: l in links && l.0 == x
  }

  /** What a cardinality means, link by link: a mandatory relationship gives every
      source a target, "n:1" and "1:1" give none two, and "1:1" and "1:n" give no
      target two sources. */
  ghost predicate LinksMean(r: Rel, sources: set<nat>, targets: set<nat>, links: set<(nat, nat)>) {
    && (forall l :: l in links ==> l.0 in sources && l.1 in targets)
    && (r.mandatory ==> forall x :: x in sources ==> HasPartner(links, x))
    && (r.card in {ManyToOne, OneToOne} ==> forall k, l :: k in links && l in links && k.0 == l.0 ==> k == l)
    && (r.card in {OneToOne, OneToMany} ==> forall k, l :: k in links && l in links && k.1 == l.1 ==> k == l)
  }

  lemma LoneExact(s: set<nat>)
    ensures |s| <= 1 <==> forall x, y :: x in s && y in s ==> x == y
  {
    if s != {} {
      var x :| x in s;
      assert s == {x} + (s - {x});
      if |s| > 1 {
        assert |s - {x}| > 0;
        var y :| y in s - {x};
      }
      if |s| <= 1 { assert s - {x} == {}; }
    }
  }

  lemma MultExact(r: Rel, links: set<(nat, nat)>, x: nat)
    ensures MultOk(ResolveMult(r.card, r.mandatory), |Targets(links, x)|) <==>
            && (r.mandatory ==> HasPartner(links, x))
            && (r.card in {ManyToOne, OneToOne} ==> forall k, l :: k in links && l in links && k.0 == x && l.0 == x ==> k == l)
  {
    var ts := Targets(links, x);
    LoneExact(ts);
    assert HasPartner(links, x) <==> ts != {} by {
      if ts != {} {
        var y :| y in ts;
        assert (x, y) in links && (x, y).0 == x;
      }
      if HasPartner(links, x) {
        var l :| l in links && l.0 == x;
        assert l == (x, l.1) && l.1 in ts;
      }
    }
    assert (forall y, z :: y in ts && z in ts ==> y == z) <==> (forall k, l :: k in links && l in links && k.0 == x && l.0 == x ==> k == l) by {
      if forall y, z :: y in ts && z in ts ==> y == z {
        forall k, l | k in links && l in links && k.0 == x && l.0 == x ensures k == l {
          assert k == (x, k.1) && l == (x, l.1) && k.1 in ts && l.1 in ts;
        }
      } else {
        var y, z :| y in ts && z in ts && y != z;
        assert (x, y) in links && (x, z) in links && (x, y).0 == x && (x, z).0 == x;
      }
    }
  }

  lemma InverseExact(links: set<(nat, nat)>, y: nat)
    ensures |Sources(links, y)| <= 1 <==> forall k, l :: k in links && l in links && k.1 == y && l.1 == y ==> k == l
  {
    var ss := Sources(links, y);
    LoneExact(ss);
    if forall w, x :: w in ss && x in ss ==> w == x {
      forall k, l | k in links && l in links && k.1 == y && l.1 == y ensures k == l {
        assert k == (k.0, y) && l == (l.0, y) && k.0 in ss && l.0 in ss;
      }
    } else {
      var w, x :| w in ss && x in ss && w != x;
      assert (w, y) in links && (x, y) in links && (w, y).1 == y && (x, y).1 == y;
    }
  }

  /** The emitted multiplicities say exactly what the cardinality means. */
  lemma RelExact(r: Rel, sources: set<nat>, targets: set<nat>, links: set<(nat, nat)>)
    ensures RelOk(r, sources, targets, links) <==> LinksMean(r, sources, targets, links)
  {
    forall x ensures MultOk(ResolveMult(r.card, r.mandatory), |Targets(links, x)|) <==>
                     && (r.mandatory ==> HasPartner(links, x))
                     && (r.card in {ManyToOne, OneToOne} ==> forall k, l :: k in links && l in links && k.0 == x && l.0 == x ==> k == l) {
      MultExact(r, links, x);
    }
    forall y ensures |Sources(links, y)| <= 1 <==> forall k, l :: k in links && l in links && k.1 == y && l.1 == y ==> k == l { InverseExact(links, y); }
  }

  /** The value field and the Unique fact. */
  ghost predicate UniqueOk(u: Unique, records: set<nat>, values: map<nat, nat>) {
    && values.Keys == records
    && (u.domainSize > 0 ==> forall x :: x in records ==> values[x] < u.domainSize)
    && (forall x, y :: x in records && y in records && x != y ==> values[x] != values[y])
  }

  /** The flag field and the Singleton fact. */
  ghost predicate SingletonOk(records: set<nat>, flags: map<nat, bool>) {
    && flags.Keys == records
    && exists x :: x in records && flags[x] && forall y :: y in records && flags[y] ==> y == x
  }

  function Flagged(records: set<nat>, flags: map<nat, bool>): (r: set<nat>)
    requires flags.Keys == records
    ensures forall x :: x in r <==> x in records && flags[x]
  {
    set x | x in records && flags[x]
  }

  /** Exactly one record carries the flag. */
  lemma SingletonExact(records: set<nat>, flags: map<nat, bool>)
    requires flags.Keys == records
    ensures SingletonOk(records, flags) <==> |Flagged(records, flags)| == 1
  {
    var flagged := Flagged(records, flags);
    LoneExact(flagged);
    if SingletonOk(records, flags) {
      var x :| x in records && flags[x] && forall y :: y in records && flags[y] ==> y == x;
      assert flagged == {x};
    }
    if |flagged| == 1 {
      var x :| x in flagged;
      assert x in records && flags[x] && forall y :: y in records && flags[y] ==> y in flagged && y == x;
    }
  }

  ghost predicate WorldOk(a: Annotation, w: World) {
    && w.records.Keys == a.entities
    && |w.links| == |a.rels| && |w.values| == |a.uniques| && |w.flags| == |a.singletons|
    && (forall i :: 0 <= i < |a.rels| ==> a.rels[i].from in w.records && a.rels[i].to in w.records
                                          && RelOk(a.rels[i], w.records[a.rels[i].from], w.records[a.rels[i].to], w.links[i]))
    && (forall i :: 0 <= i < |a.uniques| ==> a.uniques[i].entity in w.records && UniqueOk(a.uniques[i], w.records[a.uniques[i].entity], w.values[i]))
    && (forall i :: 0 <= i < |a.singletons| ==> a.singletons[i] in w.records && SingletonOk(w.records[a.singletons[i]], w.flags[i]))
  }

  /** Every entity holds at least n records. */
  ghost predicate PopulatedBy(w: World, n: nat) {
    forall e :: e in w.records ==> |w.records[e]| >= n
  }

  ghost predicate DomainsAllow(a: Annotation, n: nat) {
    forall i :: 0 <= i < |a.uniques| ==> a.uniques[i].domainSize == 0 || a.uniques[i].domainSize >= n
  }

  // -------------------------------------------------------- diagonal worlds

  function Identity(n: nat): (s: set<(nat, nat)>)
    ensures forall l :: l in s <==> l.0 < n && l.1 == l.0
  {
    if n == 0 then {} else Identity(n - 1) + {(n - 1, n - 1)}
  }

  /** n records of every entity, record i linked to record i, holding value i,
      flagged when i is 0. */
  function Diagonal(a: Annotation, n: nat): World {
    var s := Below(n);
    World(map e | e in a.entities :: s,
          seq(|a.rels|, _ => Identity(n)),
          seq(|a.uniques|, _ => map x | x in s :: x),
          seq(|a.singletons|, _ => map x | x in s :: x == 0))
  }

  lemma DiagonalRel(r: Rel, n: nat)
    ensures RelOk(r, Below(n), Below(n), Identity(n))
  {
    forall x | x in Below(n) ensures |Targets(Identity(n), x)| == 1 && |Sources(Identity(n), x)| == 1 { OwnLink(n, x); }
  }

  lemma OwnLink(n: nat, x: nat)
    requires x < n
    ensures |Targets(Identity(n), x)| == 1 && |Sources(Identity(n), x)| == 1
  {
    assert (x, x) in Identity(n);
    assert Targets(Identity(n), x) == {x};
    assert Sources(Identity(n), x) == {x};
  }

  lemma SelfValued(n: nat)
    ensures (map x | x in Below(n) :: x).Values == Below(n)
  {
    var m := map x | x in Below(n) :: x;
    forall x | x in Below(n) ensures x in m.Values { assert m[x] == x; }
  }

  lemma DiagonalWorld(a: Annotation, n: nat)
    requires AnnotationOk(a) && n >= 1 && DomainsAllow(a, n)
    ensures WorldOk(a, Diagonal(a, n)) && PopulatedBy(Diagonal(a, n), n)
    ensures WithinBound(a, Diagonal(a, n), n)
  {
    DiagonalFits(a, n);
    var w := Diagonal(a, n);
    forall i | 0 <= i < |a.rels|
      ensures RelOk(a.rels[i], w.records[a.rels[i].from], w.records[a.rels[i].to], w.links[i])
    {
      DiagonalRel(a.rels[i], n);
    }
    forall i | 0 <= i < |a.singletons| ensures SingletonOk(w.records[a.singletons[i]], w.flags[i]) {
      assert 0 in Below(n) && w.flags[i][0];
    }
  }

  lemma DiagonalFits(a: Annotation, n: nat)
    ensures WithinBound(a, Diagonal(a, n), n) && PopulatedBy(Diagonal(a, n), n)
  {
    SelfValued(n);
    var w := Diagonal(a, n);
    assert forall i :: 0 <= i < |a.uniques| ==> w.values[i] == map x | x in Below(n) :: x;
  }

  // ------------------------------------------------------------- pigeonhole

  /** An injective map into fewer than d values has at most d keys. */
  lemma {:induction false} Pigeonhole(m: map<nat, nat>, d: nat)
    requires forall x :: x in m ==> m[x] < d
    requires forall x, y :: x in m && y in m && x != y ==> m[x] != m[y]
    ensures |m| <= d
  {
    if d == 0 {
      assert m == map[];
    } else if x :| x in m && m[x] == d - 1 {
      var rest := m - {x};
      Pigeonhole(rest, d - 1);
      assert m.Keys == rest.Keys + {x};
    } else {
      Pigeonhole(m, d - 1);
    }
  }

  lemma DomainCapsRecords(a: Annotation, w: World, i: nat)
    requires WorldOk(a, w) && i < |a.uniques| && a.uniques[i].domainSize > 0
    ensures |w.records[a.uniques[i].entity]| <= a.uniques[i].domainSize
  {
    assert UniqueOk(a.uniques[i], w.records[a.uniques[i].entity], w.values[i]);
    Pigeonhole(w.values[i], a.uniques[i].domainSize);
    assert |w.values[i]| == |w.values[i].Keys|;
  }

  // ----------------------------------------------------------- admissibility

  /** Admissibility is decided exactly, for every target n: some world, of any
      size, holds n records of every entity under all constraints exactly when
      every bounded unique domain has at least n values. */
  lemma PopulatableExact(a: Annotation, n: nat)
    requires AnnotationOk(a) && n >= 1
    ensures (exists w :: WorldOk(a, w) && PopulatedBy(w, n)) <==> DomainsAllow(a, n)
  {
    if DomainsAllow(a, n) { DiagonalWorld(a, n); }
    if w :| WorldOk(a, w) && PopulatedBy(w, n) {
      forall i | 0 <= i < |a.uniques| ensures a.uniques[i].domainSize == 0 || a.uniques[i].domainSize >= n {
        if a.uniques[i].domainSize > 0 {
          DomainCapsRecords(a, w, i);
          assert |w.records[a.uniques[i].entity]| >= n;
        }
      }
    }
  }

  const POPULATABLE := 3

  /** The emitted target is min(3, bound) and the bound is at least 3. */
  function Target(bound: nat): nat {
    if bound < POPULATABLE then bound else POPULATABLE
  }

  /** The bound caps the records of every entity and the atoms of every open
      value signature; a bounded signature declares its own atoms. */
  ghost predicate WithinBound(a: Annotation, w: World, bound: nat) {
    && (forall e :: e in w.records ==> |w.records[e]| <= bound)
    && forall i :: 0 <= i < |a.uniques| <= |w.values| && a.uniques[i].domainSize == 0 ==> |w.values[i].Values| <= bound
  }

  lemma BoundGrows(a: Annotation, w: World, small: nat, bound: nat)
    requires WithinBound(a, w, small) && small <= bound
    ensures WithinBound(a, w, bound)
  {
  }

  /** So the verdict of run Populatable is the same at every accepted bound: it
      is unsatisfiable exactly for a unique boolean, or a unique enum of fewer
      than three values. */
  lemma PopulatableAtAnyBound(a: Annotation, bound: nat)
    requires AnnotationOk(a) && 3 <= bound
    ensures (exists w :: WorldOk(a, w) && WithinBound(a, w, bound) && PopulatedBy(w, Target(bound))) <==> DomainsAllow(a, POPULATABLE)
  {
    PopulatableExact(a, POPULATABLE);
    if DomainsAllow(a, POPULATABLE) {
      DiagonalWorld(a, POPULATABLE);
      BoundGrows(a, Diagonal(a, POPULATABLE), POPULATABLE, bound);
    }
  }

  /** SomeWorld never fails: bounded domains are not empty. */
  lemma SomeWorldSatisfiable(a: Annotation)
    requires AnnotationOk(a)
    ensures WorldOk(a, Diagonal(a, 1)) && PopulatedBy(Diagonal(a, 1), 1) && WithinBound(a, Diagonal(a, 1), 1)
  {
    DiagonalWorld(a, 1);
  }

  /** The direction of a cardinality is what the facts enforce: in an admitted
      world a mandatory 1:1 relationship pairs every source with a target of its
      own, so it can only exist into at least as many records. */
  lemma MandatoryOneToOneInjects(r: Rel, sources: set<nat>, targets: set<nat>, links: set<(nat, nat)>)
    requires RelOk(r, sources, targets, links) && r.card.OneToOne? && r.mandatory
    ensures |sources| <= |targets|
  {
    forall x | x in sources ensures exists y :: (x, y) in links {
      assert |Targets(links, x)| == 1;
      var y :| y in Targets(links, x);
    }
    InjectiveLinks(sources, targets, links);
  }

  lemma {:induction false} InjectiveLinks(sources: set<nat>, targets: set<nat>, links: set<(nat, nat)>)
    requires forall x :: x in sources ==> exists y :: (x, y) in links && y in targets
    requires forall y :: y in targets ==> |Sources(links, y)| <= 1
    ensures |sources| <= |targets|
  {
    if x :| x in sources {
      var y :| (x, y) in links && y in targets;
      forall x' | x' in sources - {x} ensures exists y' :: (x', y') in links && y' in targets - {y} {
        var y' :| (x', y') in links && y' in targets;
        if y' == y {
          assert {x, x'} <= Sources(links, y);
          SubsetSize({x, x'}, Sources(links, y));
          assert false;
        }
      }
      InjectiveLinks(sources - {x}, targets - {y}, links);
    }
  }
}
