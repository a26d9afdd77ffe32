/**
 * `compare_folders` with its filesystem calls replaced by inputs: the two
 * `os.walk` results are maps from relative path to the set of immediate
 * sub-directory names, the `os.listdir` lookups are listing functions, and
 * the file walk with its `filecmp.cmp` outcomes is a sequence of records.
 *
 * What is left is the divergence anchor (the least differing path), the
 * neighbourhood filter around it, the change map built in path order, its
 * deep-prune and change count, and the sorted list of differing files.
 */
module FolderDiff {
  import opened Json
  import opened PathOrder

  datatype Option<T> = None | Some(value: T)

  /** One tree as `os.walk` sees it: relative path ("." for the root) to immediate sub-directory names. */
  type Structure = map<string, set<string>>

  /**
   * The sub-directory listing of `os.path.join(root, parent, name)` for one
   * root; it is empty when that path does not exist.
   */
  type Listing = (string, string) -> seq<string>

  /** Everything the structure comparison reads from the two trees. */
  datatype Scan = Scan(dir1: Structure, dir2: Structure, listing1: Listing, listing2: Listing)

  /** `structure.get(path, set())` */
  function Children(st: Structure, p: string): set<string> {
    if p in st then st[p] else {}
  }

  function AllPaths(scan: Scan): set<string> {
    scan.dir1.Keys + scan.dir2.Keys
  }

  predicate Differs(scan: Scan, p: string) {
    Children(scan.dir1, p) != Children(scan.dir2, p)
  }

  // ---------------------------------------------------------------------
  // The divergence anchor

  /** `a` is the first path, in sorted order, whose child sets differ. */
  ghost predicate IsAnchor(scan: Scan, a: string) {
    && a in AllPaths(scan)
    && Differs(scan, a)
    && forall p :: p in AllPaths(scan) && Less(p, a) ==> !Differs(scan, p)
  }

  /** There is at most one anchor. */
  lemma AnchorUnique(scan: Scan, a: string, b: string)
    requires IsAnchor(scan, a) && IsAnchor(scan, b)
    ensures a == b
  {
    LessTrichotomy(a, b);
  }

  /** The anchor, or None when no path differs. */
  ghost function Anchor(scan: Scan): Option<string> {
    if exists a :: IsAnchor(scan, a) then Some(var a :| IsAnchor(scan, a); a) else None
  }

  /** The loop over `sorted(all_paths)` that stops at the first differing path. */
  method FindAnchor(scan: Scan) returns (anchor: Option<string>)
    ensures anchor == Anchor(scan)
    ensures anchor.None? <==> forall p :: p in AllPaths(scan) ==> !Differs(scan, p)
  {
    var paths := SortPaths(AllPaths(scan));
    anchor := None;
    var i := 0;
    while i < |paths|
      invariant 0 <= i <= |paths|
      invariant anchor.None?
      invariant forall j :: 0 <= j < i ==> !Differs(scan, paths[j])
    {
      if Children(scan.dir1, paths[i]) != Children(scan.dir2, paths[i]) {
        anchor := Some(paths[i]);
        break;
      }
      i := i + 1;
    }
    if anchor.Some? {
      var a := anchor.value;
      assert a == paths[i];
      forall p | p in AllPaths(scan) && Less(p, a)
        ensures !Differs(scan, p)
      {
        var j :| 0 <= j < |paths| && paths[j] == p;
        StrictlySortedIndexOrder(paths, j, i);
      }
      assert IsAnchor(scan, a);
      ghost var b :| IsAnchor(scan, b);
      AnchorUnique(scan, a, b);
    } else {
      forall p | p in AllPaths(scan)
        ensures !Differs(scan, p)
      {
        var j :| 0 <= j < |paths| && paths[j] == p;
      }
    }
  }

  // ---------------------------------------------------------------------
  // The neighbourhood filter

  /** Python's `path.count('\\')`. */
  function Backslashes(p: string): nat {
    multiset(p)['\\']
  }

  /**
   * Whether the change loop looks at `p`: with a (truthy) anchor, only paths
   * that have it as a string prefix and at most one more backslash.
   */
  predicate Eligible(anchor: Option<string>, p: string) {
    match anchor
    case None => true
    case Some(a) => a == "" || (a <= p && Backslashes(p) <= Backslashes(a) + 1)
  }

  lemma AnchorIsEligible(a: string)
    ensures Eligible(Some(a), a)
  {
  }

  /** With the root as anchor, only "." and the paths starting with a dot are looked at. */
  lemma RootAnchorAdmitsOnlyDotPaths(p: string)
    requires Eligible(Some("."), p)
    ensures p != "" && p[0] == '.'
  {
    assert "."[0] == '.';
  }

  /** Without backslashes in a path, the depth test never excludes it. */
  lemma DepthTestVacuousWithoutBackslashes(a: string, p: string)
    requires a != "" && Backslashes(p) == 0
    ensures Eligible(Some(a), p) <==> a <= p
  {
  }

  /** The prefix test is on characters, not path components: any extension of the anchor without a backslash passes, a sibling such as "ab" under "a" included. */
  lemma SiblingPassesPrefixTest(a: string, s: string)
    requires a != "" && Backslashes(s) == 0
    ensures Eligible(Some(a), a + s)
  {
    assert a <= a + s by {
      assert (a + s)[..|a|] == a;
    }
    assert multiset(a + s) == multiset(a) + multiset(s);
  }

  // ---------------------------------------------------------------------
  // Change entries

  function NewNames(scan: Scan, p: string): set<string> {
    Children(scan.dir2, p) - Children(scan.dir1, p)
  }

  function DeletedNames(scan: Scan, p: string): set<string> {
    Children(scan.dir1, p) - Children(scan.dir2, p)
  }

  predicate HasChange(scan: Scan, p: string) {
    NewNames(scan, p) != {} || DeletedNames(scan, p) != {}
  }

  /** A path has an added or a deleted name exactly when its two child sets differ. */
  lemma HasChangeIffDiffers(scan: Scan, p: string)
    ensures HasChange(scan, p) <==> Differs(scan, p)
  {
    var s1, s2 := Children(scan.dir1, p), Children(scan.dir2, p);
    if s2 - s1 == {} && s1 - s2 == {} {
      assert forall x :: x in s1 <==> x in s2;
    }
  }

  /** The change map key for a path: the root "." is recorded under "". */
  function KeyOf(p: string): (k: string)
    ensures k == "" <==> p == "" || p == "."
    ensures p != "." ==> k == p
  {
    if p == "." then "" else p
  }

  /** A list of directory names, as JSON. */
  function NameList(names: seq<string>): Value {
    List(seq(|names|, i requires 0 <= i < |names| => Str(names[i])))
  }

  /** `{name: [sub-directories of name]}` for every name in `names`. */
  function NamesValue(names: set<string>, listing: Listing, parent: string): Value {
    Dict(map n | n in names :: NameList(listing(parent, n)))
  }

  /** The entry recorded for a changed path, before pruning. */
  function EntryOf(scan: Scan, p: string): Value {
    var parent := KeyOf(p);
    Dict(map[
      "new" := NamesValue(NewNames(scan, p), scan.listing2, parent),
      "deleted" := NamesValue(DeletedNames(scan, p), scan.listing1, parent)])
  }

  /** The entry's "new" names are the names only the second tree has, its "deleted" names those only the first has; no name is both. */
  lemma EntryNames(scan: Scan, p: string)
    ensures EntryOf(scan, p).entries["new"].entries.Keys
            == Children(scan.dir2, p) - Children(scan.dir1, p)
    ensures EntryOf(scan, p).entries["deleted"].entries.Keys
            == Children(scan.dir1, p) - Children(scan.dir2, p)
    ensures EntryOf(scan, p).entries["new"].entries.Keys
            !! EntryOf(scan, p).entries["deleted"].entries.Keys
  {
  }

  /** The inner loops: one name at a time, record the name's sub-directory listing. */
  method BuildNames(names: set<string>, listing: Listing, parent: string) returns (d: Value)
    ensures d == NamesValue(names, listing, parent)
  {
    var m: map<string, Value> := map[];
    var rest := names;
    while rest != {}
      invariant rest <= names
      invariant m == map n | n in names - rest :: NameList(listing(parent, n))
      decreases rest
    {
      var n :| n in rest;
      m := m[n := NameList(listing(parent, n))];
      rest := rest - {n};
    }
    d := Dict(m);
  }

  // ---------------------------------------------------------------------
  // The change map

  predicate Qualifies(scan: Scan, anchor: Option<string>, p: string) {
    Eligible(anchor, p) && HasChange(scan, p)
  }

  /** The paths of the union that pass the filter and have a change. */
  function Qualifying(scan: Scan, anchor: Option<string>): set<string> {
    set p | p in AllPaths(scan) && Qualifies(scan, anchor, p)
  }

  /**
   * Whether key `k` is in the change map once the paths `ps` are visited,
   * `q` being the qualifying paths: a qualifying path other than "." is
   * recorded under its own name, a qualifying "." under "".
   */
  predicate Recorded(q: set<string>, ps: set<string>, k: string) {
    || (k in ps && k in q && k != ".")
    || (k == "" && "." in ps && "." in q)
  }

  /**
   * The path whose entry ends up under key `k`: the loop visits "" before
   * ".", so when both are recorded the root's entry overwrites the other.
   */
  function SourceOf(q: set<string>, ps: set<string>, k: string): string {
    if k == "" && "." in ps && "." in q then "." else k
  }

  /** For each key recorded after visiting the paths `ps`, the path whose entry it holds. */
  function Sources(q: set<string>, ps: set<string>): map<string, string> {
    map k | k in ps + {""} && Recorded(q, ps, k) :: SourceOf(q, ps, k)
  }

  /** The entries of the paths a key map points to. */
  function Entries(scan: Scan, sources: map<string, string>): map<string, Value> {
    map k | k in sources :: EntryOf(scan, sources[k])
  }

  /** The change map `compare_folders` builds before pruning. */
  function ChangeMap(scan: Scan, anchor: Option<string>): map<string, Value> {
    Entries(scan, Sources(Qualifying(scan, anchor), AllPaths(scan)))
  }

  /** A key is recorded exactly when some visited qualifying path maps to it, and its entry comes from such a path. */
  lemma RecordedSource(q: set<string>, ps: set<string>, k: string)
    ensures Recorded(q, ps, k) <==> exists x :: x in ps && x in q && KeyOf(x) == k
    ensures Recorded(q, ps, k) ==>
      var x := SourceOf(q, ps, k);
      x in ps && x in q && KeyOf(x) == k
  {
    if x :| x in ps && x in q && KeyOf(x) == k {
      assert Recorded(q, ps, k);
    }
  }

  /** Visiting `p` adds the key of `p` when it qualifies, with `p` as its source, and changes nothing else. */
  lemma RecordedStep(q: set<string>, ps: set<string>, p: string, k: string)
    requires p == "" ==> "." !in ps
    ensures Recorded(q, ps + {p}, k) <==> Recorded(q, ps, k) || (p in q && k == KeyOf(p))
    ensures k != KeyOf(p) ==> SourceOf(q, ps + {p}, k) == SourceOf(q, ps, k)
    ensures p in q && k == KeyOf(p) ==> SourceOf(q, ps + {p}, k) == p
  {
  }

  /** Visiting one more path points its key at it exactly when it qualifies, and touches no other key. */
  lemma SourcesStep(q: set<string>, ps: set<string>, p: string)
    requires p == "" ==> "." !in ps
    ensures Sources(q, ps + {p}) == if p in q then Sources(q, ps)[KeyOf(p) := p] else Sources(q, ps)
  {
    var after := Sources(q, ps + {p});
    var expected := if p in q then Sources(q, ps)[KeyOf(p) := p] else Sources(q, ps);
    forall k
      ensures k in after <==> k in expected
      ensures k in after ==> after[k] == expected[k]
    {
      RecordedStep(q, ps, p, k);
    }
  }

  /** Pointing one key at a path writes that path's entry under the key. */
  lemma EntriesUpdate(scan: Scan, sources: map<string, string>, k: string, p: string)
    ensures Entries(scan, sources[k := p]) == Entries(scan, sources)[k := EntryOf(scan, p)]
  {
  }

  /** One pass of the change loop: skip `p` outside the anchor's neighbourhood, otherwise record its entry when its child sets differ. */
  method VisitPath(scan: Scan, anchor: Option<string>, changes: map<string, Value>, p: string)
    returns (changes': map<string, Value>)
    ensures changes' == if Qualifies(scan, anchor, p) then changes[KeyOf(p) := EntryOf(scan, p)] else changes
  {
    changes' := changes;
    if anchor.Some? && anchor.value != "" {
      if !(anchor.value <= p) {
        return;
      }
      if Backslashes(p) > Backslashes(anchor.value) + 1 {
        return;
      }
    }
    var dirs1 := Children(scan.dir1, p);
    var dirs2 := Children(scan.dir2, p);
    var newDirs := dirs2 - dirs1;
    var deletedDirs := dirs1 - dirs2;
    if newDirs != {} || deletedDirs != {} {
      var parent := if p == "." then "" else p;
      var added := BuildNames(newDirs, scan.listing2, parent);
      var removed := BuildNames(deletedDirs, scan.listing1, parent);
      changes' := changes'[parent := Dict(map["new" := added, "deleted" := removed])];
    }
  }

  /** The paths visited so far are the first `i` of the sorted list, and each sorts before every later one. */
  ghost predicate VisitedPrefix(paths: seq<string>, i: int, visited: set<string>) {
    && 0 <= i <= |paths|
    && (forall x :: x in visited <==> x in paths[..i])
    && (forall x, j :: x in visited && i <= j < |paths| ==> Less(x, paths[j]))
  }

  /** Visiting the next path of a strictly sorted list extends the visited prefix; `""` is never visited after `"."`. */
  lemma VisitNext(paths: seq<string>, i: int, visited: set<string>)
    requires StrictlySorted(paths) && i < |paths|
    requires VisitedPrefix(paths, i, visited)
    ensures paths[i] == "" ==> "." !in visited
    ensures VisitedPrefix(paths, i + 1, visited + {paths[i]})
  {
    assert paths[..i + 1] == paths[..i] + [paths[i]];
  }

  /** The loop over `sorted(all_paths)` that fills `changes_dict`. */
  method CollectChanges(scan: Scan, anchor: Option<string>) returns (changes: map<string, Value>)
    ensures changes == ChangeMap(scan, anchor)
  {
    var paths := SortPaths(AllPaths(scan));
    changes := map[];
    ghost var q := Qualifying(scan, anchor);
    ghost var visited: set<string> := {};
    var i := 0;
    while i < |paths|
      invariant VisitedPrefix(paths, i, visited)
      invariant changes == Entries(scan, Sources(q, visited))
    {
      var p := paths[i];
      VisitNext(paths, i, visited);
      assert p in q <==> Qualifies(scan, anchor, p);
      SourcesStep(q, visited, p);
      EntriesUpdate(scan, Sources(q, visited), KeyOf(p), p);
      changes := VisitPath(scan, anchor, changes, p);
      visited := visited + {p};
      i := i + 1;
    }
    assert paths[..i] == paths;
    assert visited == AllPaths(scan);
  }

  /** A recorded key comes from a qualifying path, and holds that path's entry; near a (truthy) anchor, that path has the anchor as prefix and at most one more backslash. */
  lemma ChangeKeysNearAnchor(scan: Scan, anchor: Option<string>, k: string)
    requires k in ChangeMap(scan, anchor)
    ensures exists p ::
      && p in AllPaths(scan) && KeyOf(p) == k && HasChange(scan, p)
      && ChangeMap(scan, anchor)[k] == EntryOf(scan, p)
      && (anchor.Some? && anchor.value != "" ==>
            anchor.value <= p && Backslashes(p) <= Backslashes(anchor.value) + 1)
  {
    var q := Qualifying(scan, anchor);
    RecordedSource(q, AllPaths(scan), k);
    var p := SourceOf(q, AllPaths(scan), k);
    assert p in AllPaths(scan) && Qualifies(scan, anchor, p) && KeyOf(p) == k;
  }

  /** The anchor always produces an entry. */
  lemma AnchorHasEntry(scan: Scan, a: string)
    requires IsAnchor(scan, a)
    ensures KeyOf(a) in ChangeMap(scan, Some(a))
  {
    HasChangeIffDiffers(scan, a);
    assert Qualifies(scan, Some(a), a);
    RecordedSource(Qualifying(scan, Some(a)), AllPaths(scan), KeyOf(a));
  }

  /** Without an anchor no path differs, and the change map stays empty. */
  lemma NoAnchorNoChanges(scan: Scan)
    requires Anchor(scan) == None
    ensures forall p :: p in AllPaths(scan) ==> !Differs(scan, p)
    ensures ChangeMap(scan, None) == map[]
  {
    forall p | p in AllPaths(scan)
      ensures !Differs(scan, p) && !HasChange(scan, p)
    {
      HasChangeIffDiffers(scan, p);
      if Differs(scan, p) {
        LeastDiffering(scan, p);
        assert false;
      }
    }
  }

  /** When some path differs, there is an anchor (a least differing path). */
  lemma {:induction false} LeastDiffering(scan: Scan, p: string)
    requires p in AllPaths(scan) && Differs(scan, p)
    ensures exists a :: IsAnchor(scan, a)
    decreases set q | q in AllPaths(scan) && Less(q, p)
  {
    var below := set q | q in AllPaths(scan) && Less(q, p);
    if q :| q in below && Differs(scan, q) {
      var belowQ := set r | r in AllPaths(scan) && Less(r, q);
      forall r | r in belowQ
        ensures r in below
      {
        LessTransitive(r, q, p);
      }
      LessIrreflexive(q);
      assert q !in belowQ;
      assert belowQ < below;
      LeastDiffering(scan, q);
    } else {
      assert IsAnchor(scan, p);
    }
  }

  // ---------------------------------------------------------------------
  // Pruning and counting

  /** Python's `len` on the values it is applied to here (a dict's key count). */
  function Len(v: Value): nat {
    match v
    case Dict(m) => |m|
    case List(xs) => |xs|
    case Str(s) => |s|
    case _ => 0
  }

  /** `len(data.get("new", {})) + len(data.get("deleted", {}))` for one cleaned entry. */
  function EntryCount(v: Value): nat {
    match v
    case Dict(m) =>
      (if "new" in m then Len(m["new"]) else 0) + (if "deleted" in m then Len(m["deleted"]) else 0)
    case _ => 0
  }

  /** The sum of EntryCount over the values of a map, in no particular order. */
  ghost function SumCounts(m: map<string, Value>): nat
    decreases |m|
  {
    if m == map[] then 0
    else
      var k :| k in m;
      EntryCount(m[k]) + SumCounts(m - {k})
  }

  /** The sum does not depend on which key is taken first. */
  lemma {:induction false} SumCountsRemove(m: map<string, Value>, k: string)
    requires k in m
    ensures SumCounts(m) == EntryCount(m[k]) + SumCounts(m - {k})
    decreases |m|
  {
    var j :| j in m && SumCounts(m) == EntryCount(m[j]) + SumCounts(m - {j});
    if j != k {
      SumCountsRemove(m - {j}, k);
      SumCountsRemove(m - {k}, j);
      assert m - {j} - {k} == m - {k} - {j};
    }
  }

  /** `sum(... for data in cleaned_changes.values())` */
  method TotalChanges(cleaned: map<string, Value>) returns (total: nat)
    ensures total == SumCounts(cleaned)
  {
    total := 0;
    var rest := cleaned;
    while rest != map[]
      invariant total + SumCounts(rest) == SumCounts(cleaned)
      decreases |rest|
    {
      var k :| k in rest;
      SumCountsRemove(rest, k);
      total := total + EntryCount(rest[k]);
      rest := rest - {k};
    }
  }

  /** The names whose listing is non-empty: the only ones that survive the prune. */
  function LiveNames(names: set<string>, listing: Listing, parent: string): set<string> {
    set n | n in names && listing(parent, n) != []
  }

  /** Pruning a name map keeps exactly the names with at least one sub-directory. */
  lemma CleanNamesValue(names: set<string>, listing: Listing, parent: string)
    ensures Clean(NamesValue(names, listing, parent)).Dict?
    ensures Clean(NamesValue(names, listing, parent)).entries.Keys == LiveNames(names, listing, parent)
    ensures Len(Clean(NamesValue(names, listing, parent))) == |LiveNames(names, listing, parent)|
    ensures Truthy(Clean(NamesValue(names, listing, parent))) <==> LiveNames(names, listing, parent) != {}
  {
    var m := NamesValue(names, listing, parent).entries;
    var live := LiveNames(names, listing, parent);
    forall n
      ensures n in Clean(Dict(m)).entries <==> n in live
    {
      CleanDictEntries(m, n);
    }
    assert Clean(Dict(m)).entries.Keys == live;
  }

  /**
   * After pruning, a change entry counts the added names with sub-directories
   * plus the deleted names with sub-directories; the entry survives exactly
   * when that count is positive. An added or deleted directory with no
   * sub-directories is never counted.
   */
  lemma CleanEntryCount(scan: Scan, p: string)
    ensures EntryCount(Clean(EntryOf(scan, p)))
            == |LiveNames(NewNames(scan, p), scan.listing2, KeyOf(p))|
               + |LiveNames(DeletedNames(scan, p), scan.listing1, KeyOf(p))|
    ensures Truthy(Clean(EntryOf(scan, p))) <==> EntryCount(Clean(EntryOf(scan, p))) > 0
  {
    var parent := KeyOf(p);
    var m := EntryOf(scan, p).entries;
    CleanNamesValue(NewNames(scan, p), scan.listing2, parent);
    CleanNamesValue(DeletedNames(scan, p), scan.listing1, parent);
    CleanDictEntries(m, "new");
    CleanDictEntries(m, "deleted");
    var e := Clean(Dict(m)).entries;
    assert e.Keys <= {"new", "deleted"};
    if "new" !in e && "deleted" !in e {
      assert e == map[];
    }
  }

  /** A falsy value counts nothing. */
  lemma FalsyCountsNothing(v: Value)
    requires !Truthy(v)
    ensures EntryCount(v) == 0
  {
  }

  /** Dropping the falsy values of a map does not change its sum. */
  lemma {:induction false} SumCountsTruthyPart(m: map<string, Value>)
    ensures SumCounts(map k | k in m && Truthy(m[k]) :: m[k]) == SumCounts(m)
    decreases |m|
  {
    var kept := map k | k in m && Truthy(m[k]) :: m[k];
    if m != map[] {
      var k :| k in m;
      var rest := m - {k};
      var keptRest := map j | j in rest && Truthy(rest[j]) :: rest[j];
      SumCountsRemove(m, k);
      SumCountsTruthyPart(rest);
      if Truthy(m[k]) {
        assert keptRest == kept - {k};
        SumCountsRemove(kept, k);
      } else {
        assert keptRest == kept;
        FalsyCountsNothing(m[k]);
      }
    }
  }

  /** Every value of the map cleaned, falsy or not. */
  function CleanedValues(m: map<string, Value>): map<string, Value> {
    map k | k in m :: Clean(m[k])
  }

  /** The total after pruning is the sum of the counts of every pruned entry, surviving or not. */
  lemma PrunedTotal(m: map<string, Value>)
    ensures SumCounts(Clean(Dict(m)).entries) == SumCounts(CleanedValues(m))
  {
    var cleaned := CleanedValues(m);
    SumCountsTruthyPart(cleaned);
    var kept := map k | k in cleaned && Truthy(cleaned[k]) :: cleaned[k];
    forall k
      ensures k in Clean(Dict(m)).entries <==> k in kept
      ensures k in kept ==> Clean(Dict(m)).entries[k] == kept[k]
    {
      CleanDictEntries(m, k);
    }
    assert Clean(Dict(m)).entries == kept;
  }

  // ---------------------------------------------------------------------
  // Differing files

  /** What `filecmp.cmp(..., shallow=False)` did: found the same bytes, different bytes, or raised. */
  datatype Comparison = Equal | Unequal | Raised

  /** `compare_file_contents`: a comparison that raised reads as "not the same". */
  function SameContents(c: Comparison): (same: bool)
    ensures same <==> c == Equal
  {
    match c
    case Equal => true
    case Unequal => false
    case Raised => false
  }

  /** One file met by the walk of the first tree, with what the second tree has at the same place. */
  datatype FileRecord = FileRecord(relDir: string, name: string, inDir2: bool, comparison: Comparison)

  /** `os.path.join(rel_path, file)` with the Windows separator. */
  function JoinPath(dir: string, name: string): (r: string)
    ensures |dir| + |name| <= |r| <= |dir| + 1 + |name|
    ensures r[..|dir|] == dir && r[|r| - |name|..] == name
    ensures |r| == |dir| + 1 + |name| ==> r[|dir|] == '\\'
    ensures dir != "" && dir[|dir| - 1] != '\\' && dir[|dir| - 1] != '/' ==> |r| == |dir| + 1 + |name|
    ensures dir == "" || dir[|dir| - 1] == '\\' || dir[|dir| - 1] == '/' ==> r == dir + name
  {
    if dir == "" || dir[|dir| - 1] == '\\' || dir[|dir| - 1] == '/' then dir + name
    else dir + "\\" + name
  }

  /** `.replace('\\', '/')`: every backslash becomes a forward slash. */
  function ForwardSlashes(p: string): (r: string)
    ensures |r| == |p|
    ensures forall i :: 0 <= i < |p| ==> r[i] == if p[i] == '\\' then '/' else p[i]
    ensures '\\' !in r
  {
    if p == [] then []
    else [if p[0] == '\\' then '/' else p[0]] + ForwardSlashes(p[1..])
  }

  /** A path without backslashes is left as it is. */
  lemma {:induction false} ForwardSlashesKeeps(s: string)
    requires '\\' !in s
    ensures ForwardSlashes(s) == s
  {
    if s != [] {
      ForwardSlashesKeeps(s[1..]);
      assert s == [s[0]] + s[1..];
    }
  }

  /** Forward slashes, then one leading "./" removed. */
  function Normalize(p: string): string {
    var q := ForwardSlashes(p);
    if |q| >= 2 && q[..2] == "./" then q[2..] else q
  }

  predicate Reported(f: FileRecord)
    ensures Reported(f) <==> f.inDir2 && f.comparison != Equal
  {
    f.inDir2 && !SameContents(f.comparison)
  }

  function ReportPath(f: FileRecord): string {
    Normalize(JoinPath(f.relDir, f.name))
  }

  /** What one file adds to the list: its normalised path, when it exists in both trees and does not compare equal. */
  function Contribution(f: FileRecord): seq<string> {
    if Reported(f) then [ReportPath(f)] else []
  }

  /** The paths the file loop appends, in walk order. */
  function ReportedPaths(files: seq<FileRecord>): seq<string> {
    if files == [] then []
    else ReportedPaths(files[..|files| - 1]) + Contribution(files[|files| - 1])
  }

  /** The file loop: append the normalised path of every file that exists in both trees and does not compare equal. */
  method DifferentFiles(files: seq<FileRecord>) returns (found: seq<string>)
    ensures found == ReportedPaths(files)
  {
    found := [];
    var i := 0;
    while i < |files|
      invariant 0 <= i <= |files|
      invariant found == ReportedPaths(files[..i])
    {
      var f := files[i];
      TakeOneMore(files, i);
      ReportedPathsSnoc(files[..i], f);
      if f.inDir2 && !SameContents(f.comparison) {
        var relFilePath := ForwardSlashes(JoinPath(f.relDir, f.name));
        if |relFilePath| >= 2 && relFilePath[..2] == "./" {
          relFilePath := relFilePath[2..];
        }
        found := found + [relFilePath];
      }
      i := i + 1;
    }
    assert files[..|files|] == files;
  }

  /** A reported path never holds a backslash. */
  lemma NormalizeNoBackslash(p: string)
    ensures '\\' !in Normalize(p)
  {
    var q := ForwardSlashes(p);
    if |q| >= 2 && q[..2] == "./" {
      assert forall c :: c in q[2..] ==> c in q;
    }
  }

  /**
   * A file in a sub-directory is reported as the directory and the name
   * joined by "/", with backslashes turned into "/": `a\b.txt` is reported
   * as `a/b.txt`.
   */
  lemma NestedFileReportedWithSlash(dir: string, name: string)
    requires dir != "" && dir != "."
    requires dir[|dir| - 1] != '\\' && dir[|dir| - 1] != '/'
    requires !(|dir| >= 2 && dir[0] == '.' && (dir[1] == '\\' || dir[1] == '/'))
    ensures Normalize(JoinPath(dir, name)) == ForwardSlashes(dir) + "/" + ForwardSlashes(name)
  {
    assert JoinPath(dir, name) == dir + "\\" + name;
    ForwardSlashesJoin(dir, name);
    var q := ForwardSlashes(dir + "\\" + name);
    if |dir| == 1 {
      assert q[0] == ForwardSlashes(dir)[0];
    } else {
      assert q[..2] == ForwardSlashes(dir)[..2];
    }
  }

  /** Replacing backslashes in `dir\name` replaces them in each part and turns the separator into "/". */
  lemma ForwardSlashesJoin(dir: string, name: string)
    ensures ForwardSlashes(dir + "\\" + name) == ForwardSlashes(dir) + "/" + ForwardSlashes(name)
  {
    var joined := dir + "\\" + name;
    var q, expected := ForwardSlashes(joined), ForwardSlashes(dir) + "/" + ForwardSlashes(name);
    forall i | 0 <= i < |q|
      ensures q[i] == expected[i]
    {
      assert q[i] == if joined[i] == '\\' then '/' else joined[i];
      if i < |dir| {
        assert joined[i] == dir[i] && expected[i] == ForwardSlashes(dir)[i];
      } else if i > |dir| {
        var j := i - |dir| - 1;
        assert joined[i] == name[j] && expected[i] == ForwardSlashes(name)[j];
      } else {
        assert joined[i] == '\\' && expected[i] == '/';
      }
    }
  }

  /** A file directly under the root is reported by its own name. */
  lemma RootFileReportedByName(name: string)
    requires '\\' !in name
    ensures Normalize(JoinPath(".", name)) == name
  {
    var q := ForwardSlashes(".\\" + name);
    assert JoinPath(".", name) == ".\\" + name;
    assert q[..2] == "./";
    forall i | 0 <= i < |name|
      ensures q[2..][i] == name[i]
    {
      assert (".\\" + name)[i + 2] == name[i];
      assert name[i] in name;
    }
  }

  /** The reported list of a concatenation is the concatenation of the reported lists. */
  lemma {:induction false} ReportedPathsAppend(a: seq<FileRecord>, b: seq<FileRecord>)
    ensures ReportedPaths(a + b) == ReportedPaths(a) + ReportedPaths(b)
    decreases |b|
  {
    if b == [] {
      assert a + b == a;
    } else {
      var b', last := b[..|b| - 1], b[|b| - 1];
      assert ReportedPaths(a + b) == ReportedPaths(a + b') + Contribution(last) by {
        SplitLast(a, [], b);
        ReportedPathsSnoc(a + b', last);
      }
      assert ReportedPaths(b) == ReportedPaths(b') + Contribution(last) by {
        SplitLast(a, [], b);
        ReportedPathsSnoc(b', last);
      }
      ReportedPathsAppend(a, b');
    }
  }

  /** A path is reported exactly when some file that exists in both trees and does not compare equal normalises to it. */
  lemma ReportedPathsMembers(files: seq<FileRecord>, p: string)
    ensures p in ReportedPaths(files)
            <==> exists i :: 0 <= i < |files| && Reported(files[i]) && ReportPath(files[i]) == p
  {
    ContributionsMembers(files, p);
    forall i | 0 <= i < |files|
      ensures p in Contribution(files[i]) <==> Reported(files[i]) && ReportPath(files[i]) == p
    {
    }
  }

  lemma {:induction false} ContributionsMembers(files: seq<FileRecord>, p: string)
    ensures p in ReportedPaths(files) <==> exists i :: 0 <= i < |files| && p in Contribution(files[i])
  {
    if files != [] {
      var init, last := files[..|files| - 1], files[|files| - 1];
      SplitLast([], [], files);
      ReportedPathsSnoc(init, last);
      ContributionsMembers(init, p);
      assert forall i :: 0 <= i < |init| ==> init[i] == files[i];
    }
  }

  /** A file missing from the second tree, or comparing equal, adds nothing to the list. */
  lemma UnreportedFileIgnored(files: seq<FileRecord>, i: nat)
    requires i < |files| && !Reported(files[i])
    ensures ReportedPaths(files) == ReportedPaths(files[..i] + files[i + 1..])
  {
    SplitAt(files, i);
    DropUnreported(files[..i], files[i], files[i + 1..]);
  }

  /** The first `i + 1` elements are the first `i` followed by the element at `i`. */
  lemma TakeOneMore<T>(s: seq<T>, i: nat)
    requires i < |s|
    ensures s[..i + 1] == s[..i] + [s[i]]
  {
  }

  /** A sequence is its part before `i`, its element at `i` and its part after `i`. */
  lemma SplitAt<T>(s: seq<T>, i: nat)
    requires i < |s|
    ensures s == s[..i] + ([s[i]] + s[i + 1..])
  {
    assert [s[i]] + s[i + 1..] == s[i..];
  }

  lemma {:induction false} DropUnreported(before: seq<FileRecord>, f: FileRecord, after: seq<FileRecord>)
    requires !Reported(f)
    ensures ReportedPaths(before + ([f] + after)) == ReportedPaths(before + after)
    decreases |after|
  {
    if after == [] {
      assert before + ([f] + after) == before + [f];
      ReportedPathsSnoc(before, f);
      assert before + after == before;
    } else {
      var shorter, last := after[..|after| - 1], after[|after| - 1];
      DropUnreported(before, f, shorter);
      SplitLast(before, [f], after);
      ReportedPathsSnoc(before + ([f] + shorter), last);
      ReportedPathsSnoc(before + shorter, last);
    }
  }

  /** Taking the last element off the end of a concatenation. */
  lemma SplitLast<T>(a: seq<T>, m: seq<T>, b: seq<T>)
    requires b != []
    ensures a + (m + b) == (a + (m + b[..|b| - 1])) + [b[|b| - 1]]
    ensures a + b == (a + b[..|b| - 1]) + [b[|b| - 1]]
    ensures b == b[..|b| - 1] + [b[|b| - 1]]
  {
    assert b == b[..|b| - 1] + [b[|b| - 1]];
  }

  /** Walking one more file appends what that file contributes. */
  lemma ReportedPathsSnoc(files: seq<FileRecord>, f: FileRecord)
    ensures ReportedPaths(files + [f]) == ReportedPaths(files) + Contribution(f)
  {
    assert (files + [f])[..|files|] == files;
  }


  // ---------------------------------------------------------------------
  // The result

  /** The "different_files" field: the sorted list, or the sentinel when it is empty. */
  datatype FilesReport = Paths(paths: seq<string>) | NoneFound

  /** The sentinel string written when no file differs. */
  const NoneSentinel: string := "没有"

  /** The field as it is written to JSON. */
  function FilesJson(r: FilesReport): Value
  {
    match r
    case Paths(ps) => NameList(ps)
    case NoneFound => Str(NoneSentinel)
  }

  /** `different_files`: the sentinel when no file is reported, otherwise the sorted reported paths. */
  function FilesField(files: seq<FileRecord>): (r: FilesReport)
    ensures r == NoneFound <==> forall i :: 0 <= i < |files| ==> !Reported(files[i])
    ensures r.Paths? ==> Sorted(r.paths) && multiset(r.paths) == multiset(ReportedPaths(files))
  {
    NothingReportedIffEmpty(files);
    var found := ReportedPaths(files);
    if found == [] then NoneFound else Paths(SortStrings(found))
  }

  /** The reported list is empty exactly when no file exists in both trees with unequal contents. */
  lemma NothingReportedIffEmpty(files: seq<FileRecord>)
    ensures ReportedPaths(files) == [] <==> forall i :: 0 <= i < |files| ==> !Reported(files[i])
  {
    if ReportedPaths(files) != [] {
      ReportedPathsMembers(files, ReportedPaths(files)[0]);
    } else {
      forall i | 0 <= i < |files|
        ensures !Reported(files[i])
      {
        ReportedPathsMembers(files, ReportPath(files[i]));
      }
    }
  }

  /** The "differences" part of the result. */
  datatype Differences = Differences(changes: map<string, Value>, totalChanges: nat, differentFiles: FilesReport)

  /** The pruned change map of a scan. */
  ghost function PrunedChanges(scan: Scan): map<string, Value> {
    Clean(Dict(ChangeMap(scan, Anchor(scan)))).entries
  }

  /** Lines 141-148: prune a non-empty change map and, when something is left, count its entries. */
  method PruneAndCount(changesDict: map<string, Value>) returns (changes: map<string, Value>, total: nat)
    ensures changes == Clean(Dict(changesDict)).entries
    ensures total == SumCounts(changes)
  {
    changes, total := map[], 0;
    if changesDict != map[] {
      var cleaned := Clean(Dict(changesDict)).entries;
      if cleaned != map[] {
        changes := cleaned;
        total := TotalChanges(cleaned);
      }
    } else {
      assert Clean(Dict(changesDict)).entries == map[];
    }
  }

  /** `compare_folders` without its I/O: the differences it writes. */
  method CompareFolders(scan: Scan, files: seq<FileRecord>) returns (d: Differences)
    ensures d.changes == PrunedChanges(scan)
    ensures d.totalChanges == SumCounts(d.changes)
    ensures d.differentFiles == FilesField(files)
  {
    var anchor := FindAnchor(scan);
    var changesDict := CollectChanges(scan, anchor);
    var found := DifferentFiles(files);

    var differentFiles := NoneFound;
    if found != [] {
      differentFiles := Paths(SortStrings(found));
    }

    var changes, total := PruneAndCount(changesDict);
    d := Differences(changes, total, differentFiles);
  }

  /** Two trees with the same structure produce no change entry and a zero count. */
  lemma IdenticalStructuresNoChanges(scan: Scan)
    requires scan.dir1 == scan.dir2
    ensures Anchor(scan) == None
    ensures PrunedChanges(scan) == map[]
    ensures SumCounts(PrunedChanges(scan)) == 0
  {
    forall a | a in AllPaths(scan)
      ensures !Differs(scan, a)
    {
    }
    NoAnchorNoChanges(scan);
  }

  /** The written `different_files` field is the sentinel string exactly when no file exists in both trees with unequal contents; otherwise it lists paths. */
  lemma NothingDifferentIsSentinel(files: seq<FileRecord>)
    ensures FilesJson(FilesField(files)) == Str(NoneSentinel)
            <==> forall i :: 0 <= i < |files| ==> !Reported(files[i])
    ensures FilesJson(FilesField(files)).List? <==> exists i :: 0 <= i < |files| && Reported(files[i])
  {
    var r := FilesField(files);
    if r.Paths? {
      assert FilesJson(r) == NameList(r.paths);
    }
  }
}
