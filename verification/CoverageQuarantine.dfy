/** Keeping the coverage corpus to the preferred seeds (scripts/hermes_watch.py,
    `sync_preferred_coverage_corpus`, `_move_coverage_seed_to_quarantine`, `copy_seed_into_bucket`).

    A directory is a map from file names to contents. The hash is any function of the contents, and the
    name a clashing seed is given any function of its name and hash. */
module CoverageQuarantine {

  type Dir = map<string, string>

  /** A preferred seed: the base name of its path, and what it holds. */
  datatype Source = Source(name: string, content: string)

  datatype Naming = Naming(sha: string -> string, suffixed: (string, string) -> string) {
    /** Equal hashes mean equal contents. */
    ghost predicate Faithful() {
      forall c, d :: sha(c) == sha(d) ==> c == d
    }

    /** {stem}-{sha8}{suffix} */
    function Renamed(name: string, content: string): string {
      suffixed(name, sha(content))
    }
  }

  function Names(sources: seq<Source>): set<string> {
    set i | 0 <= i < |sources| :: sources[i].name
  }

  /** The coverage directory after the copies. */
  function Copied(coverage: Dir, sources: seq<Source>): Dir {
    if sources == [] then coverage
    else Copied(coverage, sources[..|sources| - 1])[sources[|sources| - 1].name := sources[|sources| - 1].content]
  }

  /** How many of the copies changed something. */
  function CopyCount(coverage: Dir, sources: seq<Source>, nm: Naming): nat {
    if sources == [] then 0
    else
      var before, s := sources[..|sources| - 1], sources[|sources| - 1];
      var dir := Copied(coverage, before);
      CopyCount(coverage, before, nm) + if s.name in dir && nm.sha(dir[s.name]) == nm.sha(s.content) then 0 else 1
  }

  /** The quarantine after one seed has moved in. */
  function Moved(quarantine: Dir, name: string, content: string, nm: Naming): Dir {
    if name !in quarantine then quarantine[name := content]
    else if nm.sha(quarantine[name]) == nm.sha(content) then quarantine
    else quarantine[nm.Renamed(name, content) := content]
  }

  /** The seed's own name is taken in the quarantine by other contents. */
  predicate Taken(quarantine: Dir, seeds: Dir, n: string) {
    n in seeds && n in quarantine && quarantine[n] != seeds[n]
  }

  /** The suffixed name of a seed whose own name is taken is not in use for something else: not in the
      quarantine, not as the name of another seed, not as another such name. */
  ghost predicate NoClash(quarantine: Dir, seeds: Dir, nm: Naming) {
    && (forall n :: Taken(quarantine, seeds, n) && nm.Renamed(n, seeds[n]) in quarantine ==>
          quarantine[nm.Renamed(n, seeds[n])] == seeds[n])
    && (forall n, m ::
          Taken(quarantine, seeds, n) && m in seeds && nm.Renamed(n, seeds[n]) == m ==> seeds[m] == seeds[n])
    && (forall n, m ::
          Taken(quarantine, seeds, n) && Taken(quarantine, seeds, m) ==>
            nm.Renamed(n, seeds[n]) == nm.Renamed(m, seeds[m]) ==> seeds[n] == seeds[m])
  }

  /** The quarantine after these seeds have moved in, in this order. */
  function MovedAll(quarantine: Dir, seeds: Dir, order: seq<string>, nm: Naming): Dir
    requires forall n :: n in order ==> n in seeds
  {
    if order == [] then quarantine
    else
      var k := |order| - 1;
      Moved(MovedAll(quarantine, seeds, order[..k], nm), order[k], seeds[order[k]], nm)
  }

  /** Each of these names once. */
  ghost predicate Lists(order: seq<string>, names: set<string>) {
    (forall n :: n in order <==> n in names) && forall i, j :: 0 <= i < j < |order| ==> order[i] != order[j]
  }

  class Corpus {
    var coverage: Dir
    var quarantine: Dir

    /** _move_coverage_seed_to_quarantine */
    method MoveToQuarantine(name: string, nm: Naming)
      requires name in coverage
      modifies this
      ensures quarantine == Moved(old(quarantine), name, old(coverage)[name], nm)
      ensures coverage == old(coverage) - {name}
    {
      var content := coverage[name];
      var destination := name;
      if destination in quarantine {
        if nm.sha(content) == nm.sha(quarantine[destination]) {
          coverage := coverage - {name};
          return;
        }
        destination := nm.suffixed(name, nm.sha(content));
      }
      coverage := coverage - {name};
      quarantine := quarantine[destination := content];
    }

    /** The copying loop of sync_preferred_coverage_corpus. */
    method CopyPreferred(sources: seq<Source>, nm: Naming) returns (copied: nat, preferred: set<string>)
      modifies this`coverage
      ensures coverage == Copied(old(coverage), sources) && copied == CopyCount(old(coverage), sources, nm)
      ensures preferred == Names(sources)
    {
      copied, preferred := 0, {};
      var k := 0;
      while k < |sources|
        invariant 0 <= k <= |sources|
        invariant coverage == Copied(old(coverage), sources[..k])
        invariant copied == CopyCount(old(coverage), sources[..k], nm)
        invariant preferred == Names(sources[..k])
      {
        var s := sources[k];
        if s.name !in coverage || nm.sha(coverage[s.name]) != nm.sha(s.content) {
          copied := copied + 1;
        }
        coverage := coverage[s.name := s.content];
        preferred := preferred + {s.name};
        assert sources[..k + 1][..k] == sources[..k];
        NamesStep(sources, k);
        k := k + 1;
      }
      assert sources[..k] == sources;
    }

    /** The quarantining loop. The seeds are taken in any order, which is handed back. */
    method QuarantineRest(preferred: set<string>, nm: Naming) returns (quarantined: nat, ghost order: seq<string>)
      modifies this
      ensures Lists(order, old(coverage).Keys - preferred) && quarantined == |order|
      ensures coverage.Keys == old(coverage).Keys * preferred
      ensures coverage == old(coverage) - (old(coverage).Keys - preferred)
      ensures quarantine == MovedAll(old(quarantine), old(coverage), order, nm)
    {
      quarantined, order := 0, [];
      var todo := coverage.Keys - preferred;
      ghost var full, rest := coverage, todo;
      while todo != {}
        invariant todo <= rest <= full.Keys && Lists(order, rest - todo) && quarantined == |order|
        invariant coverage == full - (rest - todo)
        invariant quarantine == MovedAll(old(quarantine), full, order, nm)
        decreases todo
      {
        var name :| name in todo;
        assert coverage - {name} == full - (rest - (todo - {name}));
        assert (order + [name])[..|order|] == order;
        MoveToQuarantine(name, nm);
        order := order + [name];
        todo := todo - {name};
        quarantined := quarantined + 1;
      }
    }

    /** sync_preferred_coverage_corpus */
    method Sync(sources: seq<Source>, nm: Naming) returns (copied: nat, quarantined: nat, ghost order: seq<string>)
      modifies this
      ensures sources == [] ==> coverage == old(coverage) && quarantine == old(quarantine) && copied == quarantined == 0
      ensures sources != [] ==> Lists(order, old(coverage).Keys - Names(sources))
      ensures sources != [] ==> coverage.Keys == Names(sources)
      ensures sources != [] ==>
        forall n :: n in coverage ==>
          n in Copied(old(coverage), sources) && coverage[n] == Copied(old(coverage), sources)[n]
      ensures sources != [] ==> quarantine == MovedAll(old(quarantine), old(coverage), order, nm)
      ensures sources != [] ==> copied == CopyCount(old(coverage), sources, nm) && quarantined == |order|
    {
      copied, quarantined, order := 0, 0, [];
      if sources == [] {
        return;
      }
      var preferred;
      copied, preferred := CopyPreferred(sources, nm);
      ghost var full := coverage;
      quarantined, order := QuarantineRest(preferred, nm);
      CopiedNames(old(coverage), sources);
      SameMoves(old(quarantine), full, old(coverage), order, nm);
    }
  }

  /** Copying does not touch the seeds that move. */
  lemma {:induction false} SameMoves(quarantine: Dir, full: Dir, coverage: Dir, order: seq<string>, nm: Naming)
    requires forall n :: n in order ==> n in full && n in coverage && full[n] == coverage[n]
    ensures MovedAll(quarantine, full, order, nm) == MovedAll(quarantine, coverage, order, nm)
  {
    if order != [] {
      SameMoves(quarantine, full, coverage, order[..|order| - 1], nm);
    }
  }

  lemma NamesStep(sources: seq<Source>, k: nat)
    requires k < |sources|
    ensures Names(sources[..k + 1]) == Names(sources[..k]) + {sources[k].name}
  {
    forall n | n in Names(sources[..k + 1])
      ensures n in Names(sources[..k]) + {sources[k].name}
    {
      var i :| 0 <= i < k + 1 && sources[..k + 1][i].name == n;
      if i < k {
        assert sources[..k][i].name == n;
      }
    }
    forall n | n in Names(sources[..k])
      ensures n in Names(sources[..k + 1])
    {
      var i :| 0 <= i < k && sources[..k][i].name == n;
      assert sources[..k + 1][i].name == n;
    }
    assert sources[..k + 1][k].name == sources[k].name;
  }

  lemma {:induction false} CopiedNames(coverage: Dir, sources: seq<Source>)
    ensures Copied(coverage, sources).Keys == coverage.Keys + Names(sources)
    ensures forall n :: n in coverage && n !in Names(sources) ==> Copied(coverage, sources)[n] == coverage[n]
  {
    if sources != [] {
      var k := |sources| - 1;
      CopiedNames(coverage, sources[..k]);
      NamesStep(sources, k);
      assert sources[..k + 1] == sources;
    }
  }

  // ---------------------------------------------------------------------------
  // The quarantine while seeds move in
  // ---------------------------------------------------------------------------

  /** Between the first and the last move: what was there is still there, and anything new is a seed, under
      its own or its suffixed name. */
  ghost predicate Between(before: Dir, seeds: Dir, q: Dir, nm: Naming) {
    && (forall n :: n in before ==> n in q && q[n] == before[n])
    && (forall n :: n in q && n !in before ==>
          || (n in seeds && q[n] == seeds[n])
          || (exists m :: Taken(before, seeds, m) && n == nm.Renamed(m, seeds[m]) && q[n] == seeds[m]))
  }

  /** A slot that is in use for a taken seed's suffixed name holds that seed's content, and a name that
      was free holds its seed's. */
  lemma SlotFits(before: Dir, seeds: Dir, q: Dir, n: string, nm: Naming)
    requires NoClash(before, seeds, nm) && Between(before, seeds, q, nm) && n in seeds
    ensures Taken(before, seeds, n) && nm.Renamed(n, seeds[n]) in q ==> q[nm.Renamed(n, seeds[n])] == seeds[n]
    ensures n in q && n !in before ==> q[n] == seeds[n]
  {
    var r := nm.Renamed(n, seeds[n]);
    if Taken(before, seeds, n) && r in q && r !in before && !(r in seeds && q[r] == seeds[r]) {
      var m :| Taken(before, seeds, m) && r == nm.Renamed(m, seeds[m]) && q[r] == seeds[m];
    }
  }

  lemma MoveKeeps(before: Dir, seeds: Dir, q: Dir, name: string, nm: Naming)
    requires nm.Faithful() && NoClash(before, seeds, nm) && Between(before, seeds, q, nm) && name in seeds
    ensures var r := Moved(q, name, seeds[name], nm);
      Between(before, seeds, r, nm) && q.Values <= r.Values && seeds[name] in r.Values
  {
    var c := seeds[name];
    var r := Moved(q, name, c, nm);
    SlotFits(before, seeds, q, name, nm);
    assert forall n :: n in q ==> n in r && r[n] == q[n];
    assert c in r.Values by {
      var slot := if name !in q || q[name] == c then name else nm.Renamed(name, c);
      assert slot in r && r[slot] == c;
    }
    ValuesGrow(q, r);
  }

  lemma {:induction false} MovesKeep(before: Dir, seeds: Dir, order: seq<string>, nm: Naming)
    requires nm.Faithful() && NoClash(before, seeds, nm) && forall n :: n in order ==> n in seeds
    ensures Between(before, seeds, MovedAll(before, seeds, order, nm), nm)
    ensures forall n :: n in order ==> seeds[n] in MovedAll(before, seeds, order, nm).Values
  {
    if order != [] {
      var k := |order| - 1;
      MovesKeep(before, seeds, order[..k], nm);
      MoveKeeps(before, seeds, MovedAll(before, seeds, order[..k], nm), order[k], nm);
      assert forall n :: n in order ==> n in order[..k] || n == order[k];
    }
  }

  lemma ValuesGrow(q: Dir, r: Dir)
    requires forall n :: n in q ==> n in r && r[n] == q[n]
    ensures q.Values <= r.Values
  {
    forall v | v in q.Values
      ensures v in r.Values
    {
      var n :| n in q && q[n] == v;
      assert r[n] == v;
    }
  }

  // ---------------------------------------------------------------------------
  // What a sync does
  // ---------------------------------------------------------------------------

  /** Distinct preferred base names. */
  predicate DistinctNames(sources: seq<Source>) {
    forall i, j :: 0 <= i < j < |sources| ==> sources[i].name != sources[j].name
  }

  /** When no suffixed name clashes, a sync loses nothing, whatever the order of the moves: every seed
      without a preferred name is in the quarantine, and every file of the quarantine is as it was. */
  lemma SyncLosesNothing(coverage: Dir, quarantine: Dir, sources: seq<Source>, order: seq<string>, nm: Naming)
    requires nm.Faithful() && NoClash(quarantine, coverage - Names(sources), nm)
    requires Lists(order, coverage.Keys - Names(sources))
    ensures var after := MovedAll(quarantine, coverage, order, nm);
      && (forall n :: n in coverage && n !in Names(sources) ==> coverage[n] in after.Values)
      && (forall n :: n in quarantine ==> n in after && after[n] == quarantine[n])
  {
    var seeds := coverage - Names(sources);
    SameMoves(quarantine, seeds, coverage, order, nm);
    MovesKeep(quarantine, seeds, order, nm);
  }

  /** With distinct base names every preferred seed ends up in coverage with its own content. */
  lemma {:induction false} PreferredContents(coverage: Dir, sources: seq<Source>, i: nat)
    requires DistinctNames(sources) && i < |sources|
    ensures sources[i].name in Copied(coverage, sources)
    ensures Copied(coverage, sources)[sources[i].name] == sources[i].content
  {
    var k := |sources| - 1;
    if i < k {
      PreferredContents(coverage, sources[..k], i);
    }
  }

  /** The preferred seeds that were missing or held something else. */
  function Changed(coverage: Dir, sources: seq<Source>): set<int> {
    set i | 0 <= i < |sources| &&
            (sources[i].name !in coverage || coverage[sources[i].name] != sources[i].content)
  }

  lemma ChangedStep(coverage: Dir, sources: seq<Source>, k: nat)
    requires k + 1 == |sources|
    ensures var s := sources[k];
      |Changed(coverage, sources)| ==
      |Changed(coverage, sources[..k])| + if s.name in coverage && coverage[s.name] == s.content then 0 else 1
  {
    var s, before := sources[k], Changed(coverage, sources[..k]);
    assert forall i :: 0 <= i < k ==> sources[..k][i] == sources[i];
    assert Changed(coverage, sources) ==
           if s.name in coverage && coverage[s.name] == s.content then before else before + {k};
  }

  lemma LastNameIsNew(coverage: Dir, sources: seq<Source>, k: nat)
    requires DistinctNames(sources) && k + 1 == |sources|
    ensures var n, dir := sources[k].name, Copied(coverage, sources[..k]);
      (n in dir <==> n in coverage) && (n in coverage ==> n in dir && dir[n] == coverage[n])
  {
    CopiedNames(coverage, sources[..k]);
    assert sources[k].name !in Names(sources[..k]);
  }

  /** With distinct base names the copies that are counted are those that changed something. */
  lemma {:induction false} CountsChanges(coverage: Dir, sources: seq<Source>, nm: Naming)
    requires DistinctNames(sources) && nm.Faithful()
    ensures CopyCount(coverage, sources, nm) == |Changed(coverage, sources)|
  {
    if sources == [] {
      assert Changed(coverage, sources) == {};
    } else {
      var k := |sources| - 1;
      CountsChanges(coverage, sources[..k], nm);
      LastNameIsNew(coverage, sources, k);
      ChangedStep(coverage, sources, k);
    }
  }

  /** Once synced, nothing is left to do: a second sync copies nothing and moves nothing. */
  lemma SecondSyncIsIdle(coverage: Dir, sources: seq<Source>, coverage': Dir, nm: Naming)
    requires DistinctNames(sources) && coverage'.Keys == Names(sources)
    requires forall n :: n in coverage' ==>
      n in Copied(coverage, sources) && coverage'[n] == Copied(coverage, sources)[n]
    ensures Copied(coverage', sources) == coverage' && CopyCount(coverage', sources, nm) == 0
    ensures coverage'.Keys - Names(sources) == {}
  {
    forall i: nat | i < |sources|
      ensures sources[i].name in coverage' && coverage'[sources[i].name] == sources[i].content
    {
      PreferredContents(coverage, sources, i);
      assert sources[i].name in Names(sources);
    }
    CopyAgain(coverage', sources, nm);
  }

  lemma {:induction false} CopyAgain(dir: Dir, sources: seq<Source>, nm: Naming)
    requires forall i: nat :: i < |sources| ==> sources[i].name in dir && dir[sources[i].name] == sources[i].content
    ensures Copied(dir, sources) == dir && CopyCount(dir, sources, nm) == 0
  {
    if sources != [] {
      CopyAgain(dir, sources[..|sources| - 1], nm);
    }
  }

  // ---------------------------------------------------------------------------
  // When the quarantine stays as it was
  // ---------------------------------------------------------------------------

  /** Every file that was there is there, with its contents. */
  predicate Intact(before: Dir, after: Dir) {
    forall n :: n in before ==> n in after && after[n] == before[n]
  }

  predicate Different(names: seq<string>) {
    forall i, j :: 0 <= i < j < |names| ==> names[i] != names[j]
  }

  /** The seeds as far as some order of the moves has come. */
  ghost predicate Begun(seeds: Dir, order: seq<string>) {
    Different(order) && forall n :: n in order ==> n in seeds
  }

  /** Seed n, when it has to be renamed, gets the name of seed m, which was free and has other contents. */
  predicate Displaces(before: Dir, seeds: Dir, n: string, m: string, nm: Naming) {
    n in seeds && m in seeds && m !in before && m == nm.Renamed(n, seeds[n]) && seeds[n] != seeds[m]
  }

  /** Seeds that displace each other: the name of the first is taken in the quarantine, and each displaces
      the next. */
  ghost predicate Displaced(before: Dir, seeds: Dir, chain: seq<string>, nm: Naming) {
    && chain != [] && Begun(seeds, chain) && Taken(before, seeds, chain[0])
    && forall i, j :: 0 <= i && j == i + 1 && j < |chain| ==> Displaces(before, seeds, chain[i], chain[j], nm)
  }

  /** The suffixed name of seed n is not a file of the quarantine with other contents. */
  predicate SlotFree(before: Dir, seeds: Dir, n: string, nm: Naming)
    requires n in seeds
  {
    var r := nm.Renamed(n, seeds[n]);
    r in before ==> before[r] == seeds[n]
  }

  /** Moving displaced seeds one after another, each under its suffixed name. */
  lemma {:induction false} DisplacedMoves(before: Dir, seeds: Dir, chain: seq<string>, nm: Naming)
    requires nm.Faithful() && Displaced(before, seeds, chain, nm)
    ensures var n := chain[|chain| - 1]; var after := MovedAll(before, seeds, chain, nm);
      nm.Renamed(n, seeds[n]) in after && after[nm.Renamed(n, seeds[n])] == seeds[n]
  {
    var k := |chain| - 1;
    if k > 0 {
      DisplacedMoves(before, seeds, chain[..k], nm);
      assert chain[..k][k - 1] == chain[k - 1];
    } else {
      assert chain[..0] == [];
    }
  }

  /** What the moves of an order have put in so far: a seed under its own name, or the last of some
      displaced seeds under its suffixed name. */
  ghost predicate PutIn(before: Dir, seeds: Dir, order: seq<string>, q: Dir, n: string, nm: Naming)
    requires n in q
  {
    || (n in order && n in seeds && q[n] == seeds[n])
    || (exists chain :: PutBy(before, seeds, order, q[n], n, chain, nm))
  }

  ghost predicate PutBy(before: Dir, seeds: Dir, order: seq<string>, content: string, n: string, chain: seq<string>,
                        nm: Naming) {
    && Displaced(before, seeds, chain, nm) && (forall m :: m in chain ==> m in order)
    && var last := chain[|chain| - 1];
       last in seeds && n == nm.Renamed(last, seeds[last]) && content == seeds[last]
  }

  /** A seed that has to give up its own name is the last of displaced seeds. */
  lemma GivesUp(before: Dir, seeds: Dir, order: seq<string>, q: Dir, n: string, nm: Naming) returns (chain: seq<string>)
    requires Intact(before, q) && n in seeds && n !in order && n in q && q[n] != seeds[n]
    requires n !in before ==> PutIn(before, seeds, order, q, n, nm)
    ensures Displaced(before, seeds, chain, nm) && chain[|chain| - 1] == n
    ensures forall m :: m in chain ==> m in order + [n]
  {
    if n in before {
      chain := [n];
    } else {
      var c :| PutBy(before, seeds, order, q[n], n, c, nm);
      chain := c + [n];
    }
  }

  lemma PutInLater(before: Dir, seeds: Dir, order: seq<string>, q: Dir, name: string, n: string, nm: Naming)
    requires n in q && name in seeds && PutIn(before, seeds, order, q, n, nm)
    requires var r := Moved(q, name, seeds[name], nm); n in r && r[n] == q[n]
    ensures PutIn(before, seeds, order + [name], Moved(q, name, seeds[name], nm), n, nm)
  {
    if !(n in order && n in seeds && q[n] == seeds[n]) {
      var c :| PutBy(before, seeds, order, q[n], n, c, nm);
      assert PutBy(before, seeds, order + [name], q[n], n, c, nm);
    }
  }

  /** One more move. */
  lemma MoveStaysIntact(before: Dir, seeds: Dir, order: seq<string>, q: Dir, name: string, nm: Naming)
    requires nm.Faithful() && name in seeds && name !in order && Intact(before, q)
    requires forall chain :: Displaced(before, seeds, chain, nm) ==> SlotFree(before, seeds, chain[|chain| - 1], nm)
    requires forall n :: n in q && n !in before ==> PutIn(before, seeds, order, q, n, nm)
    ensures var r := Moved(q, name, seeds[name], nm);
      Intact(before, r) && forall n :: n in r && n !in before ==> PutIn(before, seeds, order + [name], r, n, nm)
  {
    var r, slot := Moved(q, name, seeds[name], nm), nm.Renamed(name, seeds[name]);
    if name in q && q[name] != seeds[name] {
      var chain := GivesUp(before, seeds, order, q, name, nm);
      assert SlotFree(before, seeds, name, nm);
      assert PutBy(before, seeds, order + [name], r[slot], slot, chain, nm);
    }
    forall n | n in r && n !in before
      ensures PutIn(before, seeds, order + [name], r, n, nm)
    {
      if n in q && r[n] == q[n] {
        PutInLater(before, seeds, order, q, name, n, nm);
      }
    }
  }

  lemma {:induction false} StaysIntact(before: Dir, seeds: Dir, order: seq<string>, nm: Naming)
    requires nm.Faithful() && Begun(seeds, order)
    requires forall chain :: Displaced(before, seeds, chain, nm) ==> SlotFree(before, seeds, chain[|chain| - 1], nm)
    ensures var q := MovedAll(before, seeds, order, nm);
      Intact(before, q) && forall n :: n in q && n !in before ==> PutIn(before, seeds, order, q, n, nm)
  {
    if order != [] {
      var k := |order| - 1;
      StaysIntact(before, seeds, order[..k], nm);
      assert order[..k] + [order[k]] == order;
      MoveStaysIntact(before, seeds, order[..k], MovedAll(before, seeds, order[..k], nm), order[k], nm);
    }
  }

  /** Whatever the order of the moves and however far they have come, every file of the quarantine is as
      it was, exactly when the last of any displaced seeds has a suffixed name that is free or holds its
      own contents: the chains start at the seeds whose names are taken and follow the suffixed names. */
  lemma IntactExactly(before: Dir, seeds: Dir, nm: Naming)
    requires nm.Faithful()
    ensures (forall order :: Begun(seeds, order) ==> Intact(before, MovedAll(before, seeds, order, nm))) <==>
      forall chain :: Displaced(before, seeds, chain, nm) ==> SlotFree(before, seeds, chain[|chain| - 1], nm)
  {
    if forall chain :: Displaced(before, seeds, chain, nm) ==> SlotFree(before, seeds, chain[|chain| - 1], nm) {
      forall order | Begun(seeds, order)
        ensures Intact(before, MovedAll(before, seeds, order, nm))
      {
        StaysIntact(before, seeds, order, nm);
      }
    }
    forall chain | Displaced(before, seeds, chain, nm) && !SlotFree(before, seeds, chain[|chain| - 1], nm)
      ensures Begun(seeds, chain) && !Intact(before, MovedAll(before, seeds, chain, nm))
    {
      DisplacedMoves(before, seeds, chain, nm);
    }
  }

  // ---------------------------------------------------------------------------
  // What the assumptions are for
  // ---------------------------------------------------------------------------

  /** Moving one seed loses nothing from the quarantine exactly when the slot it is given was free, held
      the same content, or what it held is also kept under another name. */
  lemma MoveLosesNothing(q: Dir, name: string, content: string, nm: Naming)
    requires nm.Faithful()
    ensures content in Moved(q, name, content, nm).Values
    ensures q.Values <= Moved(q, name, content, nm).Values <==>
      var r := nm.Renamed(name, content);
      name !in q || q[name] == content || r !in q || q[r] == content || exists n :: n in q && n != r && q[n] == q[r]
  {
    var after, r := Moved(q, name, content, nm), nm.Renamed(name, content);
    assert content in after.Values by {
      var slot := if name !in q || q[name] == content then name else r;
      assert slot in after && after[slot] == content;
    }
    if name !in q || q[name] == content || r !in q || q[r] == content {
      ValuesGrow(q, after);
    } else if n :| n in q && n != r && q[n] == q[r] {
      forall v | v in q.Values
        ensures v in after.Values
      {
        var k :| k in q && q[k] == v;
        assert after[if k == r then n else k] == v;
      }
    } else {
      assert q[r] in q.Values;
      forall k | k in after
        ensures after[k] != q[r]
      {
      }
    }
  }

  /** A file that has a preferred name but another content is overwritten, not quarantined. */
  lemma PreferredNameOverwritten(coverage: Dir, sources: seq<Source>, i: nat)
    requires DistinctNames(sources) && i < |sources|
    requires sources[i].name in coverage && coverage[sources[i].name] != sources[i].content
    ensures sources[i].name in Copied(coverage, sources)
    ensures Copied(coverage, sources)[sources[i].name] != coverage[sources[i].name]
    ensures sources[i].name !in coverage.Keys - Names(sources)
  {
    PreferredContents(coverage, sources, i);
    assert sources[i].name in Names(sources);
  }
}
