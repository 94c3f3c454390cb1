/** Distributed cleanup: who deletes which file, and what n agents deleting at once add up to. */
module Cleanup {
  import opened Text
  import opened Sequences
  import opened DirectoryTrees
  import opened TreeManifests

  /** `list` returns full URIs for most stores and relative paths for the rest. */
  function FullUri(listBase: string, path: string): string {
    if Contains(path, "://") then path else listBase + path
  }

  /** A listed path names an object: it is the URI itself, or what follows the list base. */
  predicate Names(listBase: string, path: string, uri: string) {
    if Contains(path, "://") then uri == path else uri == listBase + path
  }

  /** The objects a listing names, and no others. */
  predicate Lists(listBase: string, listing: seq<string>, store: set<string>) {
    && (forall p :: p in listing ==> exists u :: u in store && Names(listBase, p, u))
    && (forall u :: u in store ==> exists p :: p in listing && Names(listBase, p, u))
  }

  lemma {:induction false} BaseNameUnder(base: string, path: string)
    requires EndsWith(base, "/")
    ensures BaseName(base + path) == BaseName(path)
  {
    hide BaseName, LastIndex;
    match LastIndex(path, '/')
    case Some(i) =>
      var head, name := path[..i], path[i + 1..];
      assert path == head + "/" + name;
      BaseNameOfJoin(head, name);
      Associate(base, head + "/", name);
      Associate(base, head, "/");
      BaseNameOfJoin(base + head, name);
    case None =>
      var body := base[..|base| - 1];
      assert base == body + "/";
      BaseNameOfJoin(body, path);
      BaseNameAlone(path);
  }

  lemma BaseNameAlone(name: string)
    requires '/' !in name
    ensures BaseName(name) == name
  {
    LastIndexNone(name, '/');
  }

  // === Tree mode ===

  predicate TakesTree(path: string, agent: nat, agents: nat) {
    match TreeFileIndex(path)
    case None => false
    case Some(idx) => agents <= 1 || idx % agents == agent
  }

  function TreeShare(listBase: string, listing: seq<string>, agent: nat, agents: nat): seq<string> {
    if listing == [] then []
    else
      var last := listing[|listing| - 1];
      TreeShare(listBase, listing[..|listing| - 1], agent, agents)
      + if TakesTree(last, agent, agents) then [FullUri(listBase, last)] else []
  }

  lemma TreeShareSnoc(listBase: string, listing: seq<string>, path: string, agent: nat, agents: nat)
    ensures TreeShare(listBase, listing + [path], agent, agents)
              == TreeShare(listBase, listing, agent, agents) + if TakesTree(path, agent, agents) then [FullUri(listBase, path)] else []
  {
    hide TakesTree, FullUri;
    assert (listing + [path])[..|listing|] == listing;
  }

  method ListTree(listBase: string, listing: seq<string>, agent: nat, agents: nat) returns (objects: seq<string>)
    ensures objects == TreeShare(listBase, listing, agent, agents)
  {
    hide BaseName, StripPrefix, StripSuffix, ParseUsize, FullUri;
    objects := [];
    for i := 0 to |listing|
      invariant objects == TreeShare(listBase, listing[..i], agent, agents)
    {
      var path := listing[i];
      TreeShareSnoc(listBase, listing[..i], path, agent, agents);
      assert listing[..i + 1] == listing[..i] + [path];
      var rest := StripPrefix(BaseName(path), "file_");
      if rest.Some? {
        var digits := StripSuffix(rest.value, ".dat");
        if digits.Some? {
          var idx := ParseUsize(digits.value);
          if idx.Some? {
            if agents > 1 && idx.value % agents != agent {
              continue;
            }
            objects := objects + [FullUri(listBase, path)];
          }
        }
      }
    }
    assert listing[..|listing|] == listing;
  }

  /** A file whose name parses belongs to exactly one of n agents; any other file to none. */
  /** The tree-mode parser takes exactly the names "file_", a number and ".dat", and reads the number. */
  lemma TreeFileIndexIff(path: string, n: usize)
    ensures TreeFileIndex(path) == Some(n) <==> exists digits :: BaseName(path) == "file_" + digits + ".dat" && ParseUsize(digits) == Some(n)
  {
    hide BaseName, ParseUsize;
    var name := BaseName(path);
    if TreeFileIndex(path) == Some(n) {
      var rest := name[5..];
      var digits := rest[..|rest| - 4];
      assert name == "file_" + rest && rest == digits + ".dat";
      assert name == "file_" + digits + ".dat" && ParseUsize(digits) == Some(n);
    }
    if digits :| name == "file_" + digits + ".dat" && ParseUsize(digits) == Some(n) {
      TreeParse(path, digits);
    }
  }

  lemma TreeOwner(path: string, agent: nat, agents: nat)
    requires agents >= 2
    ensures TakesTree(path, agent, agents) <==> OwnerOf(path, agents) == Some(agent)
    ensures OwnerOf(path, agents).Some? ==> OwnerOf(path, agents).value < agents
  {}

  function OwnerOf(path: string, agents: nat): Option<nat>
    requires agents >= 1
  {
    match TreeFileIndex(path)
    case None => None
    case Some(idx) => Some(idx % agents)
  }

  function Parseable(listBase: string, listing: seq<string>): multiset<string> {
    if listing == [] then multiset{}
    else
      var last := listing[|listing| - 1];
      Parseable(listBase, listing[..|listing| - 1])
      + if TreeFileIndex(last).Some? then multiset{FullUri(listBase, last)} else multiset{}
  }

  function AllShares(listBase: string, listing: seq<string>, agents: nat, k: nat): multiset<string> {
    if k == 0 then multiset{} else AllShares(listBase, listing, agents, k - 1) + multiset(TreeShare(listBase, listing, k - 1, agents))
  }

  lemma {:induction false} AllSharesSnoc(listBase: string, listing: seq<string>, agents: nat, k: nat)
    requires agents >= 2 && k <= agents && listing != []
    ensures var last := listing[|listing| - 1];
            AllShares(listBase, listing, agents, k) == AllShares(listBase, listing[..|listing| - 1], agents, k)
              + if OwnerOf(last, agents).Some? && OwnerOf(last, agents).value < k then multiset{FullUri(listBase, last)} else multiset{}
  {
    hide TakesTree, FullUri, OwnerOf, TreeShare;
    var last, front := listing[|listing| - 1], listing[..|listing| - 1];
    if k > 0 {
      AllSharesSnoc(listBase, listing, agents, k - 1);
      TreeOwner(last, k - 1, agents);
      assert listing == front + [last];
      TreeShareSnoc(listBase, front, last, k - 1, agents);
    }
  }

  /** n agents filtering the same listing split the parseable files: none lost, none twice. */
  lemma {:induction false} TreeSharesPartition(listBase: string, listing: seq<string>, agents: nat)
    requires agents >= 2
    ensures AllShares(listBase, listing, agents, agents) == Parseable(listBase, listing)
    decreases |listing|
  {
    if listing == [] {
      NoShares(listBase, agents, agents);
    } else {
      TreeSharesPartition(listBase, listing[..|listing| - 1], agents);
      AllSharesSnoc(listBase, listing, agents, agents);
      TreeOwner(listing[|listing| - 1], 0, agents);
    }
  }

  lemma {:induction false} NoShares(listBase: string, agents: nat, k: nat)
    ensures AllShares(listBase, [], agents, k) == multiset{}
  {
    if k > 0 {
      NoShares(listBase, agents, k - 1);
    }
  }

  /** The listing of a fully prepared tree, in index order, under some root. */
  function PreparedListing(root: string, c: Config, total: nat): seq<string>
    requires c.Valid()
  {
    if total == 0 then []
    else PreparedListing(root, c, total - 1) + match FilePathOf(c, total - 1) case Some(p) => [root + p] case None => []
  }

  function Uris(listBase: string, root: string, paths: seq<string>): seq<string> {
    seq(|paths|, i requires 0 <= i < |paths| => FullUri(listBase, root + paths[i]))
  }

  /** From a listing in index order an agent picks, in order, what the manifest assigns to it. */
  lemma {:induction false} TreeShareInIndexOrder(listBase: string, root: string, c: Config, total: nat, agent: nat, agents: nat)
    requires c.Valid() && Laid(c) && c.filesPerDir > 0 && total <= ClosedFormFiles(c) && total <= USIZE_MAX
    ensures TreeShare(listBase, PreparedListing(root, c, total), agent, agents)
              == Uris(listBase, root, AgentPaths(c, total, agent, agents))
  {
    hide Laid, DirOf, AgentPaths, PreparedListing, FilePathOf, FullUri, TreeFileIndex, FileName, ClosedFormFiles, TreeShare, Uris, HoldsFile, FileDirs, TakesTree, IsMine;
    if total == 0 {
      NothingListed(listBase, root, c, agent, agents);
    } else {
      TreeShareInIndexOrder(listBase, root, c, total - 1, agent, agents);
      FilePathAt(c, total - 1);
      var dir := DirOf(c, total - 1);
      var path := dir + "/" + FileName(total - 1);
      TakesIndex(root + dir, total - 1, agent, agents);
      assert root + path == (root + dir) + "/" + FileName(total - 1);
      TreeShareSnoc(listBase, PreparedListing(root, c, total - 1), root + path, agent, agents);
      UrisConcat(listBase, root, AgentPaths(c, total - 1, agent, agents), path);
      PathsSnoc(root, c, total, agent, agents, path);
      var share, paths := TreeShare(listBase, PreparedListing(root, c, total - 1), agent, agents), AgentPaths(c, total - 1, agent, agents);
      assert share + [] == share && paths + [] == paths;
    }
  }

  lemma TakesIndex(dir: string, idx: usize, agent: nat, agents: nat)
    ensures TakesTree(dir + "/" + FileName(idx), agent, agents) <==> IsMine(idx, agent, agents)
  {
    hide TreeFileIndex, FileName;
    FileNameRoundTrip(dir, idx);
  }

  lemma PathsSnoc(root: string, c: Config, total: nat, agent: nat, agents: nat, path: string)
    requires c.Valid() && total > 0 && FilePathOf(c, total - 1) == Some(path)
    ensures AgentPaths(c, total, agent, agents)
              == AgentPaths(c, total - 1, agent, agents) + if IsMine(total - 1, agent, agents) then [path] else []
    ensures PreparedListing(root, c, total) == PreparedListing(root, c, total - 1) + [root + path]
  {
    hide FilePathOf, IsMine;
  }

  lemma NothingListed(listBase: string, root: string, c: Config, agent: nat, agents: nat)
    requires c.Valid()
    ensures TreeShare(listBase, PreparedListing(root, c, 0), agent, agents) == []
    ensures Uris(listBase, root, AgentPaths(c, 0, agent, agents)) == []
  {}

  lemma UrisConcat(listBase: string, root: string, paths: seq<string>, path: string)
    ensures Uris(listBase, root, paths + [path]) == Uris(listBase, root, paths) + [FullUri(listBase, root + path)]
  {}

  lemma {:induction false} TreeShareConcat(listBase: string, a: seq<string>, b: seq<string>, agent: nat, agents: nat)
    ensures TreeShare(listBase, a + b, agent, agents) == TreeShare(listBase, a, agent, agents) + TreeShare(listBase, b, agent, agents)
    decreases |b|
  {
    hide TakesTree, FullUri;
    if b == [] {
      assert a + b == a;
    } else {
      assert (a + b)[..|a + b| - 1] == a + b[..|b| - 1];
      TreeShareConcat(listBase, a, b[..|b| - 1], agent, agents);
    }
  }

  lemma TreeShareOne(listBase: string, path: string, agent: nat, agents: nat)
    ensures TreeShare(listBase, [path], agent, agents) == if TakesTree(path, agent, agents) then [FullUri(listBase, path)] else []
  {
    hide TakesTree, FullUri;
    assert [path][..0] == [];
  }

  /** Any listed path can be taken out and filtered last. */
  lemma TreeShareTakeOut(listBase: string, listing: seq<string>, i: nat, agent: nat, agents: nat)
    requires i < |listing|
    ensures multiset(TreeShare(listBase, listing, agent, agents))
              == multiset(TreeShare(listBase, listing[..i] + listing[i + 1..], agent, agents)) + multiset(TreeShare(listBase, [listing[i]], agent, agents))
  {
    hide TreeShare;
    var front, tail := listing[..i], listing[i + 1..];
    assert listing == front + ([listing[i]] + tail);
    TreeShareConcat(listBase, front, [listing[i]] + tail, agent, agents);
    TreeShareConcat(listBase, [listing[i]], tail, agent, agents);
    TreeShareConcat(listBase, front, tail, agent, agents);
  }

  /** What an agent picks does not depend on the order in which the store lists. */
  lemma {:induction false} ListingOrderIrrelevant(listBase: string, a: seq<string>, b: seq<string>, agent: nat, agents: nat)
    requires multiset(a) == multiset(b)
    ensures multiset(TreeShare(listBase, a, agent, agents)) == multiset(TreeShare(listBase, b, agent, agents))
    decreases |a|
  {
    hide TreeShare;
    assert |a| == |multiset(a)| == |multiset(b)| == |b|;
    if a != [] {
      var i := FindLast(a, b);
      var n := |a| - 1;
      ListingOrderIrrelevant(listBase, a[..n], b[..i] + b[i + 1..], agent, agents);
      TreeShareTakeOut(listBase, b, i, agent, agents);
      TreeShareConcat(listBase, a[..n], [a[n]], agent, agents);
      assert a == a[..n] + [a[n]];
    }
  }

  lemma {:induction false} OthersTakenByNone(listBase: string, others: seq<string>, agent: nat, agents: nat)
    requires forall i :: 0 <= i < |others| ==> TreeFileIndex(others[i]).None?
    ensures TreeShare(listBase, others, agent, agents) == []
    decreases |others|
  {
    hide TreeFileIndex, FullUri;
    if others != [] {
      OthersTakenByNone(listBase, others[..|others| - 1], agent, agents);
    }
  }

  /** From any listing of the prepared tree, in whatever order and with whatever else the store holds
      beside the files, an agent picks what the manifest assigns to it. */
  lemma TreeShareMatchesManifest(listBase: string, root: string, c: Config, total: nat, listing: seq<string>, others: seq<string>, agent: nat, agents: nat)
    requires c.Valid() && Laid(c) && c.filesPerDir > 0 && total <= ClosedFormFiles(c) && total <= USIZE_MAX
    requires multiset(listing) == multiset(PreparedListing(root, c, total) + others)
    requires forall i :: 0 <= i < |others| ==> TreeFileIndex(others[i]).None?
    ensures multiset(TreeShare(listBase, listing, agent, agents)) == multiset(Uris(listBase, root, AgentPaths(c, total, agent, agents)))
  {
    hide Laid, PreparedListing, TreeShare, Uris, AgentPaths, TreeFileIndex;
    var prepared := PreparedListing(root, c, total);
    TreeShareInIndexOrder(listBase, root, c, total, agent, agents);
    ListingOrderIrrelevant(listBase, listing, prepared + others, agent, agents);
    TreeShareConcat(listBase, prepared, others, agent, agents);
    OthersTakenByNone(listBase, others, agent, agents);
    var share := TreeShare(listBase, prepared, agent, agents);
    assert share + [] == share;
  }

  // === Flat mode ===

  datatype Verdict = Take | Skip | Panic

  /** The index in "kind-NNNNNNNN.dat", when the name has that shape. */
  function FlatIndex(path: string): Option<usize> {
    var name := BaseName(path);
    match (FirstIndex(name, '-'), FirstIndex(name, '.'))
    case (Some(dash), Some(dot)) => if dash < dot then ParseUsize(name[dash + 1..dot]) else None
    case _ => None
  }

  /** The number read is the one between the first dash and the first dot. */
  lemma FlatIndexReads(path: string, head: string, digits: string, tail: string)
    requires BaseName(path) == head + "-" + digits + "." + tail
    requires '-' !in head && '.' !in head && '.' !in digits
    ensures FlatIndex(path) == ParseUsize(digits) && !Crossed(path)
  {
    hide BaseName, ParseUsize, FirstIndex;
    var name := BaseName(path);
    var dot := |head| + 1 + |digits|;
    assert name[|head|] == '-' && name[..|head|] == head;
    assert name[dot] == '.' && name[..dot] == head + "-" + digits && '.' !in name[..dot];
    FirstIndexAt(name, '-', |head|);
    FirstIndexAt(name, '.', dot);
    assert name[|head| + 1..dot] == digits;
  }

  /** Without a dash or without a dot there is no number; a dash that comes only after the first dot
      panics. */
  lemma FlatOtherNames(path: string, head: string, tail: string)
    ensures '-' !in BaseName(path) || '.' !in BaseName(path) ==> FlatIndex(path) == None && !Crossed(path)
    ensures BaseName(path) == head + "." + tail && '.' !in head && '-' !in head && '-' in tail ==> Crossed(path)
  {
    hide BaseName, ParseUsize, FirstIndex;
    var name := BaseName(path);
    if name == head + "." + tail && '.' !in head && '-' !in head && '-' in tail {
      assert name[|head|] == '.' && name[..|head|] == head;
      FirstIndexAt(name, '.', |head|);
      assert '-' in name;
      assert forall i :: 0 <= i < |head| ==> name[i] == head[i] && head[i] in head;
      assert forall i :: 0 <= i <= |head| ==> name[i] != '-';
    }
  }

  /** A generated flat name is taken by the agent that prepared it: index modulo the number of agents. */
  lemma FlatNameOwner(dir: string, kind: string, idx: usize, agent: nat, agents: nat)
    requires kind == "prepared" || kind == "deletable"
    ensures FlatVerdict(dir + "/" + (kind + "-" + Padded(idx, 8) + ".dat"), agent, agents) == Take <==> IsMine(idx, agent, agents)
  {
    hide Padded, BaseName, ParseUsize, FlatIndex, Crossed, FlatVerdict, IsMine;
    var digits := Padded(idx, 8);
    var name := kind + "-" + digits + ".dat";
    PaddedIsPlain(idx, 8);
    PaddedParse(idx, 8);
    BaseNameIs(dir, name);
    assert name == kind + "-" + digits + "." + "dat";
    KindIsPlain(kind);
    FlatIndexReads(dir + "/" + name, kind, digits, "dat");
    VerdictByIndex(dir + "/" + name, idx, agent, agents);
  }

  lemma KindIsPlain(kind: string)
    requires kind == "prepared" || kind == "deletable"
    ensures '-' !in kind && '.' !in kind && '/' !in kind && '_' !in kind
  {}

  lemma VerdictByIndex(path: string, idx: usize, agent: nat, agents: nat)
    requires FlatIndex(path) == Some(idx) && !Crossed(path)
    ensures FlatVerdict(path, agent, agents) == Take <==> IsMine(idx, agent, agents)
  {
    hide FlatIndex, Crossed;
  }

  /** A dot before the first dash makes the slice bounds cross, which panics. */
  predicate Crossed(path: string) {
    var name := BaseName(path);
    var dash, dot := FirstIndex(name, '-'), FirstIndex(name, '.');
    dash.Some? && dot.Some? && dot.value < dash.value
  }

  function FlatVerdict(path: string, agent: nat, agents: nat): Verdict {
    if agents <= 1 then Take
    else if Crossed(path) then Panic
    else match FlatIndex(path)
      case Some(idx) => if idx % agents == agent then Take else Skip
      case None => Take
  }

  function FlatShare(listBase: string, listing: seq<string>, agent: nat, agents: nat): seq<string> {
    if listing == [] then []
    else
      var last := listing[|listing| - 1];
      FlatShare(listBase, listing[..|listing| - 1], agent, agents)
      + if FlatVerdict(last, agent, agents) == Take then [FullUri(listBase, last)] else []
  }

  lemma FlatShareNil(listBase: string, agent: nat, agents: nat)
    ensures FlatShare(listBase, [], agent, agents) == []
  {}

  lemma FlatShareSnoc(listBase: string, listing: seq<string>, path: string, agent: nat, agents: nat)
    ensures FlatShare(listBase, listing + [path], agent, agents)
              == FlatShare(listBase, listing, agent, agents) + if FlatVerdict(path, agent, agents) == Take then [FullUri(listBase, path)] else []
  {
    hide FlatVerdict, FullUri;
    assert (listing + [path])[..|listing|] == listing;
  }

  /** The flat-mode loop over the (sorted) listing; `None` is the panic of a crossed slice. */
  method ListFlat(listBase: string, listing: seq<string>, agent: nat, agents: nat) returns (r: Option<seq<string>>)
    ensures r.None? <==> agents >= 2 && exists p :: p in listing && Crossed(p)
    ensures r.Some? ==> r.value == FlatShare(listBase, listing, agent, agents)
  {
    hide BaseName, ParseUsize, FullUri, FlatShare;
    FlatShareNil(listBase, agent, agents);
    var objects := [];
    for i := 0 to |listing|
      invariant objects == FlatShare(listBase, listing[..i], agent, agents)
      invariant agents >= 2 ==> forall p :: p in listing[..i] ==> !Crossed(p)
    {
      var path := listing[i];
      FlatShareSnoc(listBase, listing[..i], path, agent, agents);
      assert listing[..i + 1] == listing[..i] + [path];
      var take := true;
      if agents > 1 {
        var name := BaseName(path);
        var dash := FirstIndex(name, '-');
        if dash.Some? {
          var dot := FirstIndex(name, '.');
          if dot.Some? {
            if dash.value + 1 > dot.value {
              assert Crossed(path) && path in listing;
              return None;
            }
            var idx := ParseUsize(name[dash.value + 1..dot.value]);
            take := if idx.Some? then idx.value % agents == agent else true;
          }
        }
      }
      if take {
        objects := objects + [FullUri(listBase, path)];
      }
    }
    assert listing[..|listing|] == listing;
    r := Some(objects);
  }

  /** Without a crossed name every file is taken by some agent, and by exactly one when its index
      parses; a file that does not parse is taken by all n. */
  lemma FlatOwners(path: string, agents: nat)
    requires agents >= 2 && !Crossed(path)
    ensures exists a :: 0 <= a < agents && FlatVerdict(path, a, agents) == Take
    ensures (forall a, b :: 0 <= a < agents && 0 <= b < agents && FlatVerdict(path, a, agents) == Take && FlatVerdict(path, b, agents) == Take ==> a == b)
            <==> FlatIndex(path).Some?
  {
    match FlatIndex(path)
    case Some(idx) => assert FlatVerdict(path, idx % agents, agents) == Take;
    case None => assert FlatVerdict(path, 0, agents) == Take && FlatVerdict(path, 1, agents) == Take;
  }

  /** One object named like "a.b-c" makes the filter of every agent panic. */
  lemma DotBeforeDashPanics()
    ensures Crossed("a.b-c")
  {
    hide FirstIndex, LastIndex;
    var name := "a.b-c";
    LastIndexNone(name, '/');
    FirstIndexAt(name, '.', 1);
    FirstIndexAt(name, '-', 3);
    assert BaseName(name) == name;
  }

  // === Concurrent deletion ===

  datatype CleanupMode = Strict | Tolerant | BestEffort

  /** What the store answers: deleted, no such object, or another failure. */
  datatype Answer = Deleted | NotFound | Failed

  /** One delete by one agent, atomic in the store; `fails` when the store refuses it. */
  datatype Event = Event(agent: nat, uri: string, fails: bool)

  function After(store: set<string>, e: Event): set<string> {
    if e.fails then store else store - {e.uri}
  }

  function AnswerTo(store: set<string>, e: Event): Answer {
    if e.fails then Failed else if e.uri in store then Deleted else NotFound
  }

  /** The answers to deletes made in this order, whatever agents they belong to. */
  function Answers(store: set<string>, events: seq<Event>): (r: seq<Answer>)
    ensures |r| == |events|
  {
    if events == [] then [] else [AnswerTo(store, events[0])] + Answers(After(store, events[0]), events[1..])
  }

  function Left(store: set<string>, events: seq<Event>): set<string> {
    if events == [] then store else Left(After(store, events[0]), events[1..])
  }

  /** The URIs some delete reached. */
  function Targets(events: seq<Event>): set<string> {
    set e | e in events && !e.fails :: e.uri
  }

  function CountOf(answers: seq<Answer>, what: Answer): nat {
    if answers == [] then 0 else (if answers[0] == what then 1 else 0) + CountOf(answers[1..], what)
  }

  lemma TargetsCons(events: seq<Event>)
    requires events != []
    ensures Targets(events) == (if events[0].fails then {} else {events[0].uri}) + Targets(events[1..])
  {
    assert events == [events[0]] + events[1..];
  }

  lemma HitStep(store: set<string>, e: Event, rest: set<string>)
    ensures |store * ((if e.fails then {} else {e.uri}) + rest)|
              == |After(store, e) * rest| + if AnswerTo(store, e) == Deleted then 1 else 0
  {
    var hit, left := store * ((if e.fails then {} else {e.uri}) + rest), After(store, e) * rest;
    if AnswerTo(store, e) == Deleted {
      assert hit == left + {e.uri} && e.uri !in left;
    } else {
      assert hit == left;
    }
  }

  /** In every interleaving exactly the reached targets are gone, and the successes of all agents
      add up to the number of distinct reached targets that existed. */
  lemma {:induction false} DeletesAddUp(store: set<string>, events: seq<Event>)
    ensures Left(store, events) == store - Targets(events)
    ensures CountOf(Answers(store, events), Deleted) == |store * Targets(events)|
    ensures CountOf(Answers(store, events), Deleted) + CountOf(Answers(store, events), NotFound) + CountOf(Answers(store, events), Failed) == |events|
    decreases |events|
  {
    if events != [] {
      var e, store' := events[0], After(store, events[0]);
      DeletesAddUp(store', events[1..]);
      TargetsCons(events);
      HitStep(store, e, Targets(events[1..]));
      assert Answers(store, events)[1..] == Answers(store', events[1..]);
      hide Targets;
      assert Left(store, events) == Left(store', events[1..]);
    }
  }

  /** The answers one agent sees, in order. */
  function Mine(events: seq<Event>, answers: seq<Answer>, agent: nat): seq<Answer>
    requires |events| == |answers|
  {
    if events == [] then []
    else (if events[0].agent == agent then [answers[0]] else []) + Mine(events[1..], answers[1..], agent)
  }

  /** A strict agent fails unless all its deletes succeeded; the other modes never fail. */
  predicate AgentOk(mode: CleanupMode, mine: seq<Answer>) {
    mode == Strict ==> AllDeleted(mine)
  }

  predicate AllDeleted(answers: seq<Answer>) {
    forall i :: 0 <= i < |answers| ==> answers[i] == Deleted
  }

  lemma AllDeletedNil()
    ensures forall answers: seq<Answer> :: AllDeleted(answers[..0])
  {}

  lemma AllDeletedSnoc(answers: seq<Answer>, i: nat)
    requires i < |answers|
    ensures AllDeleted(answers[..i + 1]) <==> AllDeleted(answers[..i]) && answers[i] == Deleted
    ensures AllDeleted(answers) ==> answers[i] == Deleted
  {
    assert forall k :: 0 <= k < i ==> answers[..i + 1][k] == answers[..i][k];
    assert answers[..i + 1][i] == answers[i];
  }

  lemma CountCons(answers: seq<Answer>, i: nat)
    requires i < |answers|
    ensures forall what :: CountOf(answers[i..], what) == (if answers[i] == what then 1 else 0) + CountOf(answers[i + 1..], what)
    ensures answers[0..] == answers
  {
    assert answers[i..][1..] == answers[i + 1..];
  }

  lemma CountNil(answers: seq<Answer>)
    requires answers == []
    ensures forall what :: CountOf(answers, what) == 0
  {}

  /** The summary loop of `cleanup_prepared_objects`. */
  method Summarize(answers: seq<Answer>, mode: CleanupMode) returns (ok: bool, succeeded: nat, alreadyDeleted: nat, errors: nat)
    ensures ok <==> AgentOk(mode, answers)
    ensures ok ==> succeeded == CountOf(answers, Deleted) && errors == CountOf(answers, Failed) && alreadyDeleted == CountOf(answers, NotFound)
    ensures !ok ==> errors == 1 && alreadyDeleted == 0
  {
    hide CountOf, AllDeleted;
    AllDeletedNil();
    succeeded, alreadyDeleted, errors := 0, 0, 0;
    for i := 0 to |answers|
      invariant mode == Strict ==> AllDeleted(answers[..i])
      invariant mode == Strict ==> errors == 0 && alreadyDeleted == 0
      invariant succeeded + CountOf(answers[i..], Deleted) == CountOf(answers, Deleted)
      invariant alreadyDeleted + CountOf(answers[i..], NotFound) == CountOf(answers, NotFound)
      invariant errors + CountOf(answers[i..], Failed) == CountOf(answers, Failed)
    {
      CountCons(answers, i);
      AllDeletedSnoc(answers, i);
      match answers[i] {
        case Deleted => succeeded := succeeded + 1;
        case NotFound =>
          if mode == Strict {
            errors := errors + 1;
            return false, succeeded, alreadyDeleted, errors;
          }
          alreadyDeleted := alreadyDeleted + 1;
        case Failed =>
          errors := errors + 1;
          if mode == Strict {
            return false, succeeded, alreadyDeleted, errors;
          }
      }
    }
    assert answers[..|answers|] == answers && answers[0..] == answers;
    CountNil(answers[|answers|..]);
    ok := true;
  }

  lemma AllDeletedCons(x: Answer, rest: seq<Answer>)
    ensures AllDeleted([x] + rest) <==> x == Deleted && AllDeleted(rest)
  {
    var all := [x] + rest;
    assert all[0] == x && forall i :: 0 <= i < |rest| ==> rest[i] == all[i + 1];
  }

  /** This agent's cleanup returns Ok: what `Summarize` decides on the answers it sees. */
  predicate ReturnsOk(mode: CleanupMode, events: seq<Event>, answers: seq<Answer>, agent: nat)
    requires |events| == |answers|
  {
    AgentOk(mode, Mine(events, answers, agent))
  }

  lemma OkCons(events: seq<Event>, answers: seq<Answer>, a: nat)
    requires |events| == |answers| && events != []
    ensures ReturnsOk(Strict, events, answers, a) <==> ReturnsOk(Strict, events[1..], answers[1..], a) && (events[0].agent == a ==> answers[0] == Deleted)
  {
    AllDeletedCons(answers[0], Mine(events[1..], answers[1..], a));
    assert [] + Mine(events[1..], answers[1..], a) == Mine(events[1..], answers[1..], a);
  }

  lemma {:induction false} AllOkIff(events: seq<Event>, answers: seq<Answer>)
    requires |events| == |answers|
    ensures AllDeleted(answers) <==> forall a: nat :: ReturnsOk(Strict, events, answers, a)
    decreases |events|
  {
    if events == [] {
      assert forall a: nat :: ReturnsOk(Strict, events, answers, a);
    } else {
      hide AllDeleted, ReturnsOk;
      AllOkIff(events[1..], answers[1..]);
      AllDeletedCons(answers[0], answers[1..]);
      assert answers == [answers[0]] + answers[1..];
      forall a: nat
        ensures ReturnsOk(Strict, events, answers, a) <==> ReturnsOk(Strict, events[1..], answers[1..], a) && (events[0].agent == a ==> answers[0] == Deleted)
      {
        OkCons(events, answers, a);
      }
      assert ReturnsOk(Strict, events, answers, events[0].agent) ==> answers[0] == Deleted;
    }
  }

  lemma {:induction false} AllDeletedIff(answers: seq<Answer>)
    ensures AllDeleted(answers) <==> CountOf(answers, Deleted) == |answers|
    ensures CountOf(answers, Deleted) <= |answers|
  {
    if answers != [] {
      AllDeletedIff(answers[1..]);
      AllDeletedCons(answers[0], answers[1..]);
      assert answers == [answers[0]] + answers[1..];
    }
  }

  predicate NoneTwice(events: seq<Event>) {
    forall i, j :: 0 <= i < j < |events| ==> events[i].uri != events[j].uri
  }

  predicate NoneFails(events: seq<Event>) {
    forall i :: 0 <= i < |events| ==> !events[i].fails
  }

  lemma {:induction false} TargetsSize(events: seq<Event>)
    ensures |Targets(events)| <= |events|
    ensures |Targets(events)| == |events| <==> NoneTwice(events) && NoneFails(events)
  {
    if events == [] {
      assert Targets(events) == {};
    } else {
      TargetsSize(events[1..]);
      TargetsCons(events);
      NoneTwiceCons(events);
      hide Targets, NoneTwice, NoneFails;
      InsertSize(events[0].uri, Targets(events[1..]));
      assert {} + Targets(events[1..]) == Targets(events[1..]);
    }
  }

  lemma InsertSize(u: string, s: set<string>)
    ensures |{u} + s| == |s| + if u in s then 0 else 1
  {
    assert u in s ==> {u} + s == s;
  }

  lemma TargetMembers(events: seq<Event>, u: string)
    ensures u in Targets(events) <==> exists i :: 0 <= i < |events| && !events[i].fails && events[i].uri == u
  {
    if u in Targets(events) {
      var e :| e in events && !e.fails && e.uri == u;
      assert exists i :: 0 <= i < |events| && events[i] == e;
    }
  }

  lemma NoneTwiceCons(events: seq<Event>)
    requires events != []
    ensures NoneTwice(events) && NoneFails(events) <==>
            NoneTwice(events[1..]) && NoneFails(events[1..]) && !events[0].fails && events[0].uri !in Targets(events[1..])
  {
    var e, rest := events[0], events[1..];
    TargetMembers(rest, e.uri);
    hide Targets;
    assert forall i :: 0 <= i < |rest| ==> rest[i] == events[i + 1];
    if NoneTwice(rest) && NoneFails(rest) && !e.fails && e.uri !in Targets(rest) {
      forall i, j | 0 <= i < j < |events|
        ensures events[i].uri != events[j].uri
      {
        assert events[j] == rest[j - 1] && !rest[j - 1].fails;
        assert i > 0 ==> events[i] == rest[i - 1];
      }
    }
  }

  /** Tolerant and best-effort agents all return Ok in every interleaving, refused deletes included.
      Strict agents all do exactly when no object is assigned twice, every assigned object exists and
      the store refuses none: a condition that does not depend on the interleaving. */
  lemma AllAgentsOkIff(mode: CleanupMode, store: set<string>, events: seq<Event>)
    ensures (forall a: nat :: ReturnsOk(mode, events, Answers(store, events), a)) <==>
            mode != Strict || (NoneTwice(events) && NoneFails(events) && Targets(events) <= store)
  {
    hide NoneTwice, NoneFails, AllDeleted, Targets, CountOf, Answers, Mine, Left;
    var answers, targets := Answers(store, events), Targets(events);
    var hit := store * targets;
    DeletesAddUp(store, events);
    TargetsSize(events);
    AllDeletedIff(answers);
    AllOkIff(events, answers);
    SubsetSize(hit, targets);
    if targets <= store {
      assert hit == targets;
    }
  }

  lemma SubsetSize(a: set<string>, b: set<string>)
    requires a <= b
    ensures |a| <= |b| && (|a| == |b| ==> a == b)
  {
    assert b == a + (b - a);
  }

  // === The two halves together ===

  /** The URIs one agent deletes, in order. */
  function UrisBy(events: seq<Event>, agent: nat): seq<string> {
    if events == [] then []
    else (if events[0].agent == agent then [events[0].uri] else []) + UrisBy(events[1..], agent)
  }

  /** Each agent deletes its own share, in any order, and the agents interleave in any way. */
  ghost predicate CarriesOut(events: seq<Event>, shares: seq<seq<string>>) {
    && (forall e :: e in events ==> e.agent < |shares|)
    && forall a :: 0 <= a < |shares| ==> multiset(UrisBy(events, a)) == multiset(shares[a])
  }

  /** What the n agents together have to delete from a listing. */
  function Assigned(tree: bool, listBase: string, listing: seq<string>): set<string> {
    set p | p in listing && (tree ==> TreeFileIndex(p).Some?) :: FullUri(listBase, p)
  }

  function Share(tree: bool, listBase: string, listing: seq<string>, agent: nat, agents: nat): seq<string> {
    if tree then TreeShare(listBase, listing, agent, agents) else FlatShare(listBase, listing, agent, agents)
  }

  predicate Takes(tree: bool, path: string, agent: nat, agents: nat) {
    if tree then TakesTree(path, agent, agents) else FlatVerdict(path, agent, agents) == Take
  }

  lemma {:induction false} UrisByMembers(events: seq<Event>, agent: nat, u: string)
    ensures u in UrisBy(events, agent) <==> exists e :: e in events && e.agent == agent && e.uri == u
  {
    if events != [] {
      UrisByMembers(events[1..], agent, u);
      assert events == [events[0]] + events[1..];
    }
  }

  lemma {:induction false} ShareMembers(tree: bool, listBase: string, listing: seq<string>, agent: nat, agents: nat, u: string)
    ensures u in Share(tree, listBase, listing, agent, agents) <==>
            exists p :: p in listing && Takes(tree, p, agent, agents) && FullUri(listBase, p) == u
    decreases |listing|
  {
    hide TakesTree, FlatVerdict, FullUri;
    if listing != [] {
      var front, last := listing[..|listing| - 1], listing[|listing| - 1];
      ShareMembers(tree, listBase, front, agent, agents, u);
      assert listing == front + [last];
    }
  }

  /** The owner of a listed path: an agent that takes it, when any does. */
  lemma SomeoneTakes(tree: bool, path: string, agents: nat)
    requires agents >= 2 && (tree || !Crossed(path))
    ensures (exists a :: 0 <= a < agents && Takes(tree, path, a, agents)) <==> (tree ==> TreeFileIndex(path).Some?)
  {
    hide TakesTree, FlatVerdict, FlatIndex, Crossed;
    if tree {
      forall a | 0 <= a < agents
        ensures TakesTree(path, a, agents) <==> OwnerOf(path, agents) == Some(a)
        ensures OwnerOf(path, agents).Some? ==> OwnerOf(path, agents).value < agents
      {
        TreeOwner(path, a, agents);
      }
      TreeOwner(path, 0, agents);
      if TreeFileIndex(path).Some? {
        assert Takes(tree, path, OwnerOf(path, agents).value, agents);
      }
    } else {
      FlatOwners(path, agents);
      var a :| 0 <= a < agents && FlatVerdict(path, a, agents) == Take;
      assert Takes(tree, path, a, agents);
    }
  }

  /** n agents that list the same storage and each delete their share, interleaved in any way, remove
      exactly the files of the prepared set (flat mode: everything listed), and their successes add
      up to the number of distinct objects removed. */
  lemma CleanupIsComplete(tree: bool, listBase: string, listing: seq<string>, agents: nat,
                          shares: seq<seq<string>>, store: set<string>, events: seq<Event>)
    requires agents >= 2 && (tree || forall p :: p in listing ==> !Crossed(p))
    requires |shares| == agents && forall a :: 0 <= a < agents ==> shares[a] == Share(tree, listBase, listing, a, agents)
    requires CarriesOut(events, shares) && NoneFails(events)
    ensures Left(store, events) == store - Assigned(tree, listBase, listing)
    ensures CountOf(Answers(store, events), Deleted) == |store * Assigned(tree, listBase, listing)|
  {
    DeletesAddUp(store, events);
    TargetsAreAssigned(tree, listBase, listing, agents, shares, events);
  }

  /** What is deleted is what was listed: an absolute path under its own URI, any other under the list
      base. */
  lemma AssignedAreNamed(tree: bool, listBase: string, listing: seq<string>, u: string)
    ensures u in Assigned(tree, listBase, listing) <==>
            exists p :: p in listing && (tree ==> TreeFileIndex(p).Some?) && Names(listBase, p, u)
  {
    hide TreeFileIndex, Contains;
    forall p: string
      ensures Names(listBase, p, u) <==> FullUri(listBase, p) == u
    {}
  }

  /** Both loops, path by path: the share has a URI exactly when it takes a listed path that names it. */
  lemma ShareIsNamed(tree: bool, listBase: string, listing: seq<string>, agent: nat, agents: nat, u: string)
    ensures u in Share(tree, listBase, listing, agent, agents) <==>
            exists p :: p in listing && Takes(tree, p, agent, agents) && Names(listBase, p, u)
  {
    hide Takes, Share, Contains;
    ShareMembers(tree, listBase, listing, agent, agents, u);
    forall p: string
      ensures Names(listBase, p, u) <==> FullUri(listBase, p) == u
    {}
  }

  /** A store listed with full or with relative paths loses exactly its own prepared objects (flat mode:
      all of them): the file name decides, and it is the same in the path and in the URI. */
  lemma CleanupRemovesOwnFiles(tree: bool, listBase: string, listing: seq<string>, agents: nat,
                               shares: seq<seq<string>>, store: set<string>, events: seq<Event>)
    requires agents >= 2 && (tree || forall p :: p in listing ==> !Crossed(p))
    requires |shares| == agents && forall a :: 0 <= a < agents ==> shares[a] == Share(tree, listBase, listing, a, agents)
    requires CarriesOut(events, shares) && NoneFails(events)
    requires EndsWith(listBase, "/") && Lists(listBase, listing, store)
    ensures Left(store, events) == store - Own(tree, store)
    ensures CountOf(Answers(store, events), Deleted) == |Own(tree, store)|
  {
    hide Share, Crossed, TreeFileIndex, CarriesOut, Answers, Left, NoneFails, Lists, Assigned, CountOf;
    CleanupIsComplete(tree, listBase, listing, agents, shares, store, events);
    AssignedAreOwn(tree, listBase, listing, store);
    assert store * Own(tree, store) == Own(tree, store);
  }

  /** The prepared objects of a store. */
  function Own(tree: bool, store: set<string>): set<string> {
    set u | u in store && (tree ==> TreeFileIndex(u).Some?)
  }

  lemma AssignedAreOwn(tree: bool, listBase: string, listing: seq<string>, store: set<string>)
    requires EndsWith(listBase, "/") && Lists(listBase, listing, store)
    ensures Assigned(tree, listBase, listing) == Own(tree, store)
  {
    forall u | u in Assigned(tree, listBase, listing)
      ensures u in Own(tree, store)
    {
      AssignedIsOwn(tree, listBase, listing, store, u);
    }
    forall u | u in Own(tree, store)
      ensures u in Assigned(tree, listBase, listing)
    {
      OwnIsAssigned(tree, listBase, listing, store, u);
    }
    hide Assigned, Own;
  }

  lemma AssignedIsOwn(tree: bool, listBase: string, listing: seq<string>, store: set<string>, u: string)
    requires EndsWith(listBase, "/") && Lists(listBase, listing, store) && u in Assigned(tree, listBase, listing)
    ensures u in Own(tree, store)
  {
    hide TreeFileIndex, Names, Assigned;
    AssignedAreNamed(tree, listBase, listing, u);
    var p :| p in listing && (tree ==> TreeFileIndex(p).Some?) && Names(listBase, p, u);
    NamesSameFile(listBase, p, u);
    var v :| v in store && Names(listBase, p, v);
    NamesOne(listBase, p, u, v);
  }

  lemma OwnIsAssigned(tree: bool, listBase: string, listing: seq<string>, store: set<string>, u: string)
    requires EndsWith(listBase, "/") && Lists(listBase, listing, store) && u in Own(tree, store)
    ensures u in Assigned(tree, listBase, listing)
  {
    hide TreeFileIndex, Names, Assigned;
    var p :| p in listing && Names(listBase, p, u);
    NamesSameFile(listBase, p, u);
    AssignedAreNamed(tree, listBase, listing, u);
  }

  lemma NamesSameFile(listBase: string, p: string, u: string)
    requires EndsWith(listBase, "/") && Names(listBase, p, u)
    ensures TreeFileIndex(u) == TreeFileIndex(p)
  {
    BaseNameUnder(listBase, p);
    hide BaseName, Contains, StripPrefix, StripSuffix, ParseUsize;
  }

  lemma NamesOne(listBase: string, p: string, u: string, v: string)
    requires Names(listBase, p, u) && Names(listBase, p, v)
    ensures u == v
  {}

  /** A relative path that itself contains "://" is taken for a URI, and its object stays. */
  lemma RelativeWithSchemeStays(listBase: string, path: string, agent: nat)
    requires listBase != "" && Contains(path, "://")
    ensures Left({listBase + path}, [Event(agent, FullUri(listBase, path), false)]) == {listBase + path}
  {
    assert |listBase + path| > |path|;
    var e := Event(agent, FullUri(listBase, path), false);
    assert [e][1..] == [];
    assert {listBase + path} - {path} == {listBase + path};
  }

  lemma TargetsAreAssigned(tree: bool, listBase: string, listing: seq<string>, agents: nat, shares: seq<seq<string>>, events: seq<Event>)
    requires agents >= 2 && (tree || forall p :: p in listing ==> !Crossed(p))
    requires |shares| == agents && forall a :: 0 <= a < agents ==> shares[a] == Share(tree, listBase, listing, a, agents)
    requires CarriesOut(events, shares) && NoneFails(events)
    ensures Targets(events) == Assigned(tree, listBase, listing)
  {
    hide Share, Takes, TreeFileIndex, FullUri, UrisBy, Crossed;
    forall u | u in Targets(events)
      ensures u in Assigned(tree, listBase, listing)
    {
      var e :| e in events && e.uri == u;
      InShare(events, shares, e.agent, u);
      UrisByMembers(events, e.agent, u);
      ShareMembers(tree, listBase, listing, e.agent, agents, u);
      var p :| p in listing && Takes(tree, p, e.agent, agents) && FullUri(listBase, p) == u;
      SomeoneTakes(tree, p, agents);
    }
    forall u | u in Assigned(tree, listBase, listing)
      ensures u in Targets(events)
    {
      var p :| p in listing && (tree ==> TreeFileIndex(p).Some?) && FullUri(listBase, p) == u;
      SomeoneTakes(tree, p, agents);
      var a :| 0 <= a < agents && Takes(tree, p, a, agents);
      ShareMembers(tree, listBase, listing, a, agents, u);
      InShare(events, shares, a, u);
      UrisByMembers(events, a, u);
    }
  }

  lemma InShare(events: seq<Event>, shares: seq<seq<string>>, a: nat, u: string)
    requires CarriesOut(events, shares) && a < |shares|
    ensures u in UrisBy(events, a) <==> u in shares[a]
  {
    assert u in multiset(UrisBy(events, a)) <==> u in multiset(shares[a]);
  }
}
