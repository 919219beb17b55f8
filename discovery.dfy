/** Service discovery and row building (dev_qa_compare.py:9-10 and 23-52):
    list the services under the root, keep those whose dev and qa directories
    both exist, intersect the `.yaml` names of the two directories and append
    one row per common name to the table. */
module Discovery {
  import opened Wrappers
  import opened Extract

  /** A path as its segments, the way `os.path.join` builds it. */
  type Path = seq<string>

  /** The part of the filesystem the script reads. A path is a directory iff
      it is a key of `listings`, which gives the names `os.listdir` returns,
      in its (arbitrary) order. `files` gives what reading and parsing each
      readable file yields; any other path cannot be opened. */
  datatype Fs = Fs(listings: map<Path, seq<string>>, files: map<Path, Load>)

  /** Lines 9-10: both environments share one root. */
  const BaseDev: Path := ["pdl-coreservices-app-deployments", "app-values-02", "nonprd"]
  const BaseQa: Path := ["pdl-coreservices-app-deployments", "app-values-02", "nonprd"]

  const Region: string := "centralus"
  const Instance: string := "mrtn2"

  /** `os.path.join(base, service, 'centralus', env, 'mrtn2')`, lines 30-31. */
  function EnvPath(base: Path, service: string, env: string): Path
  {
    base + [service, Region, env, Instance]
  }

  function DevPath(service: string): Path
  {
    EnvPath(BaseDev, service, "dev")
  }

  function QaPath(service: string): Path
  {
    EnvPath(BaseQa, service, "qa")
  }

  /** The dev and qa directories of a service differ in the environment
      segment and nowhere else, and each determines its service. */
  lemma DevQaPathsDifferOnlyInEnv(service: string, other: string)
    ensures |DevPath(service)| == |QaPath(service)| == |BaseDev| + 4
    ensures forall i :: 0 <= i < |DevPath(service)| && i != |BaseDev| + 2 ==>
      DevPath(service)[i] == QaPath(service)[i]
    ensures DevPath(service)[|BaseDev| + 2] == "dev" && QaPath(service)[|BaseDev| + 2] == "qa"
    ensures DevPath(service) == DevPath(other) ==> service == other
    ensures QaPath(service) == QaPath(other) ==> service == other
  {
    if DevPath(service) == DevPath(other) {
      assert DevPath(service)[|BaseDev|] == DevPath(other)[|BaseDev|];
    }
    if QaPath(service) == QaPath(other) {
      assert QaPath(service)[|BaseQa|] == QaPath(other)[|BaseQa|];
    }
  }

  /** What `open` plus `yaml.safe_load` yield for a path. */
  function Open(fs: Fs, p: Path): Load
  {
    if p in fs.files then fs.files[p] else Unreadable
  }

  /** No name occurs twice. */
  predicate Distinct(names: seq<string>)
  {
    forall i, j :: 0 <= i < j < |names| ==> names[i] != names[j]
  }

  /** `sub` can be obtained from `names` by dropping entries, keeping the
      order of the rest. */
  predicate Subsequence(sub: seq<string>, names: seq<string>)
    decreases |names|
  {
    if sub == [] then true
    else if names == [] then false
    else
      || (sub[|sub| - 1] == names[|names| - 1] && Subsequence(sub[..|sub| - 1], names[..|names| - 1]))
      || Subsequence(sub, names[..|names| - 1])
  }

  /** Dropping entries keeps order: a reordering is not a subsequence. */
  lemma SubsequenceExamples()
    ensures Subsequence(["a", "c"], ["a", "b", "c"])
    ensures !Subsequence(["c", "a"], ["a", "b", "c"])
  {
    assert ["a", "b", "c"][..2] == ["a", "b"] && ["a", "b"][..1] == ["a"];
    assert ["c", "a"][..1] == ["c"] && ["a", "c"][..1] == ["a"];
  }

  /** Line 26's comprehension over an already obtained listing: the names
      whose `os.path.join(base_path_dev, name)` is a directory, in listing
      order. */
  function Subdirectories(fs: Fs, names: seq<string>): (r: seq<string>)
    ensures |r| <= |names|
    ensures forall n :: n in r <==> n in names && BaseDev + [n] in fs.listings
    ensures Distinct(names) ==> Distinct(r)
    ensures Subsequence(r, names)
    decreases |names|
  {
    if names == [] then []
    else
      var rest := Subdirectories(fs, names[..|names| - 1]);
      var n := names[|names| - 1];
      assert names == names[..|names| - 1] + [n];
      if BaseDev + [n] in fs.listings then
        assert (rest + [n])[..|rest|] == rest;
        rest + [n]
      else rest
  }

  /** Line 26. `os.listdir` raises when the root is missing, which ends the
      run (None). */
  function ServiceNames(fs: Fs): (r: Option<seq<string>>)
    ensures r.Some? <==> BaseDev in fs.listings
    ensures r.Some? ==> forall n :: n in r.value <==> n in fs.listings[BaseDev] && BaseDev + [n] in fs.listings
    ensures r.Some? && Distinct(fs.listings[BaseDev]) ==> Distinct(r.value)
    ensures r.Some? ==> Subsequence(r.value, fs.listings[BaseDev])
  {
    if BaseDev in fs.listings then Some(Subdirectories(fs, fs.listings[BaseDev])) else None
  }

  /** `f.endswith('.yaml')`. */
  predicate EndsWithYaml(f: string)
  {
    |f| >= 5 && f[|f| - 5..] == ".yaml"
  }

  /** The set comprehensions of lines 36-37. */
  function YamlNames(listing: seq<string>): set<string>
  {
    set f | f in listing && EndsWithYaml(f)
  }

  /** `dev_files.intersection(qa_files)`, lines 36-40. */
  function CommonYamlNames(devListing: seq<string>, qaListing: seq<string>): (r: set<string>)
    ensures forall f :: f in r <==> EndsWithYaml(f) && f in devListing && f in qaListing
  {
    YamlNames(devListing) * YamlNames(qaListing)
  }

  /** `matching_files` for a service, taking the set to be empty when the
      check at line 34 skips the service. */
  function Matching(fs: Fs, service: string): (r: set<string>)
    ensures forall f :: f in r <==>
      && DevPath(service) in fs.listings
      && QaPath(service) in fs.listings
      && EndsWithYaml(f)
      && f in fs.listings[DevPath(service)]
      && f in fs.listings[QaPath(service)]
  {
    if DevPath(service) in fs.listings && QaPath(service) in fs.listings then
      CommonYamlNames(fs.listings[DevPath(service)], fs.listings[QaPath(service)])
    else {}
  }

  /** A file present in one environment only never matches. */
  lemma OneSidedFileExcluded(fs: Fs, service: string, f: string)
    requires DevPath(service) in fs.listings && QaPath(service) in fs.listings
    requires f in fs.listings[DevPath(service)] && f !in fs.listings[QaPath(service)]
    ensures f !in Matching(fs, service)
  {
  }

  /** One entry of `table_data` (lines 47-52). */
  datatype Row = Row(service: string, filename: string, devTag: Node, qaTag: Node)

  /** The row lines 43-52 build for a service and a common file name: both
      tags are read from the same file name, one under each environment. */
  function RowFor(fs: Fs, service: string, f: string): Row
  {
    Row(service, f,
        GetImageTag(Open(fs, DevPath(service) + [f])),
        GetImageTag(Open(fs, QaPath(service) + [f])))
  }

  /** Concatenation of the per-service blocks of rows, in service order. */
  function Flatten(blocks: seq<seq<Row>>): seq<Row>
    decreases |blocks|
  {
    if blocks == [] then [] else Flatten(blocks[..|blocks| - 1]) + blocks[|blocks| - 1]
  }

  /** The file names of a block. */
  function Names(block: seq<Row>): set<string>
    decreases |block|
  {
    if block == [] then {} else Names(block[..|block| - 1]) + {block[|block| - 1].filename}
  }

  /** `block` lists the rows of `service` for the names in `done`, one row
      per name, in some order. */
  ghost predicate Covers(fs: Fs, service: string, done: set<string>, block: seq<Row>)
  {
    && |block| == |done|
    && Names(block) == done
    && (forall j :: 0 <= j < |block| ==> block[j] == RowFor(fs, service, block[j].filename))
    && (forall j, k :: 0 <= j < k < |block| ==> block[j].filename != block[k].filename)
  }

  /** `block` lists the rows of `service`, one per matching file name, in the
      order in which the Python set of line 40 happens to be iterated. */
  ghost predicate Enumerates(fs: Fs, service: string, block: seq<Row>)
  {
    Covers(fs, service, Matching(fs, service), block)
  }

  /** Number of rows the services contribute together. */
  function TotalMatches(fs: Fs, services: seq<string>): nat
    decreases |services|
  {
    if services == [] then 0
    else TotalMatches(fs, services[..|services| - 1]) + |Matching(fs, services[|services| - 1])|
  }

  lemma {:induction false} NamesMembers(block: seq<Row>)
    ensures forall f :: f in Names(block) <==> exists j :: 0 <= j < |block| && block[j].filename == f
    decreases |block|
  {
    if block != [] {
      var init := block[..|block| - 1];
      NamesMembers(init);
      forall f | f in Names(block)
        ensures exists j :: 0 <= j < |block| && block[j].filename == f
      {
        if f in Names(init) {
          var j :| 0 <= j < |init| && init[j].filename == f;
          assert block[j] == init[j];
        } else {
          assert block[|block| - 1].filename == f;
        }
      }
      forall f | exists j :: 0 <= j < |block| && block[j].filename == f
        ensures f in Names(block)
      {
        var j :| 0 <= j < |block| && block[j].filename == f;
        if j < |block| - 1 {
          assert init[j] == block[j];
        }
      }
    }
  }

  /** Appending the row of one more name keeps a block a listing of the
      names done so far. */
  lemma CoversExtend(fs: Fs, service: string, matching: set<string>, remaining: set<string>, block: seq<Row>, f: string)
    requires remaining <= matching && f in remaining
    requires Covers(fs, service, matching - remaining, block)
    ensures Covers(fs, service, matching - (remaining - {f}), block + [RowFor(fs, service, f)])
  {
    var done := matching - remaining;
    assert matching - (remaining - {f}) == done + {f};
    var block' := block + [RowFor(fs, service, f)];
    assert block'[..|block|] == block;
    NamesMembers(block);
    forall j | 0 <= j < |block|
      ensures block'[j].filename != f
    {
      assert block'[j].filename in Names(block);
    }
  }

  /** What one block says about its rows. */
  lemma EnumeratedBlock(fs: Fs, service: string, block: seq<Row>)
    requires Enumerates(fs, service, block)
    ensures forall r :: r in block ==>
      r.service == service && r.filename in Matching(fs, service) && r == RowFor(fs, r.service, r.filename)
    ensures forall f :: f in Matching(fs, service) ==> RowFor(fs, service, f) in block
  {
    NamesMembers(block);
    forall r | r in block
      ensures r.service == service && r.filename in Matching(fs, service)
    {
      var j :| 0 <= j < |block| && block[j] == r;
      assert r.filename in Names(block);
    }
    forall f | f in Matching(fs, service)
      ensures RowFor(fs, service, f) in block
    {
      var j :| 0 <= j < |block| && block[j].filename == f;
      assert block[j] == RowFor(fs, service, f);
    }
  }

  /** The concatenation has as many rows as the services have matches. */
  lemma {:induction false} FlattenCount(fs: Fs, services: seq<string>, blocks: seq<seq<Row>>)
    requires |blocks| == |services|
    requires forall i :: 0 <= i < |services| ==> Enumerates(fs, services[i], blocks[i])
    ensures |Flatten(blocks)| == TotalMatches(fs, services)
    decreases |services|
  {
    if services != [] {
      var n := |services| - 1;
      FlattenCount(fs, services[..n], blocks[..n]);
    }
  }

  /** Every row of the concatenation belongs to a listed service and one of
      its matching names, and carries the tags read for that name. */
  lemma {:induction false} FlattenSound(fs: Fs, services: seq<string>, blocks: seq<seq<Row>>)
    requires |blocks| == |services|
    requires forall i :: 0 <= i < |services| ==> Enumerates(fs, services[i], blocks[i])
    ensures forall r :: r in Flatten(blocks) ==>
      r.service in services && r.filename in Matching(fs, r.service) && r == RowFor(fs, r.service, r.filename)
    decreases |services|
  {
    if services != [] {
      var n := |services| - 1;
      FlattenSound(fs, services[..n], blocks[..n]);
      EnumeratedBlock(fs, services[n], blocks[n]);
      assert services == services[..n] + [services[n]];
    }
  }

  /** Every matching name of every listed service has its row. */
  lemma {:induction false} FlattenComplete(fs: Fs, services: seq<string>, blocks: seq<seq<Row>>)
    requires |blocks| == |services|
    requires forall i :: 0 <= i < |services| ==> Enumerates(fs, services[i], blocks[i])
    ensures forall s, f :: s in services && f in Matching(fs, s) ==> RowFor(fs, s, f) in Flatten(blocks)
    decreases |services|
  {
    if services != [] {
      var n := |services| - 1;
      FlattenComplete(fs, services[..n], blocks[..n]);
      EnumeratedBlock(fs, services[n], blocks[n]);
      assert services == services[..n] + [services[n]];
    }
  }

  /** No row occurs twice. */
  predicate DistinctRows(rows: seq<Row>)
  {
    forall i, j :: 0 <= i < j < |rows| ==> rows[i] != rows[j]
  }

  /** Two row sequences without repeats, the second all of a service the
      first never mentions, concatenate without repeats. */
  lemma ConcatDistinct(init: seq<Row>, block: seq<Row>, service: string)
    requires DistinctRows(init) && DistinctRows(block)
    requires forall r :: r in init ==> r.service != service
    requires forall j :: 0 <= j < |block| ==> block[j].service == service
    ensures DistinctRows(init + block)
  {
    var all := init + block;
    forall i, j | 0 <= i < j < |all|
      ensures all[i] != all[j]
    {
      if i < |init| <= j {
        assert all[i] == init[i] && all[j] == block[j - |init|];
      } else if j < |init| {
        assert all[i] == init[i] && all[j] == init[j];
      } else {
        assert all[i] == block[i - |init|] && all[j] == block[j - |init|];
      }
    }
  }

  /** When the services are distinct, no row occurs twice: rows of different
      blocks differ in their service, rows of one block in their file name. */
  lemma {:induction false} FlattenDistinct(fs: Fs, services: seq<string>, blocks: seq<seq<Row>>)
    requires |blocks| == |services| && Distinct(services)
    requires forall i :: 0 <= i < |services| ==> Enumerates(fs, services[i], blocks[i])
    ensures DistinctRows(Flatten(blocks))
    decreases |services|
  {
    if services != [] {
      var n := |services| - 1;
      var block := blocks[n];
      FlattenDistinct(fs, services[..n], blocks[..n]);
      FlattenSound(fs, services[..n], blocks[..n]);
      assert services[n] !in services[..n];
      assert Enumerates(fs, services[n], block);
      assert forall j :: 0 <= j < |block| ==> block[j].service == services[n];
      ConcatDistinct(Flatten(blocks[..n]), block, services[n]);
    }
  }

  /** The facts `CollectRows` states about the concatenated blocks. */
  lemma CollectedTable(fs: Fs, services: seq<string>, blocks: seq<seq<Row>>)
    requires |blocks| == |services|
    requires forall i :: 0 <= i < |services| ==> Enumerates(fs, services[i], blocks[i])
    ensures |Flatten(blocks)| == TotalMatches(fs, services)
    ensures forall r :: r in Flatten(blocks) ==>
      r.service in services && r.filename in Matching(fs, r.service) && r == RowFor(fs, r.service, r.filename)
    ensures forall s, f :: s in services && f in Matching(fs, s) ==> RowFor(fs, s, f) in Flatten(blocks)
    ensures Distinct(services) ==> DistinctRows(Flatten(blocks))
  {
    FlattenCount(fs, services, blocks);
    FlattenSound(fs, services, blocks);
    FlattenComplete(fs, services, blocks);
    if Distinct(services) {
      FlattenDistinct(fs, services, blocks);
    }
  }

  /** What a covering block says about the table it was appended to. */
  lemma AppendedCovered(fs: Fs, service: string, matching: set<string>, table: seq<Row>, block: seq<Row>, table': seq<Row>)
    requires Covers(fs, service, matching, block) && table' == table + block
    ensures table'[..|table|] == table && |table'| == |table| + |matching|
    ensures forall j :: |table| <= j < |table'| ==>
      table'[j].filename in matching && table'[j] == RowFor(fs, service, table'[j].filename)
  {
    NamesMembers(block);
    forall j | |table| <= j < |table'|
      ensures table'[j].filename in matching && table'[j] == RowFor(fs, service, table'[j].filename)
    {
      assert table'[j] == block[j - |table|];
    }
  }

  /** Lines 42-52: take the names of `matching` one at a time, in an
      unspecified order, and append the row of each to the table. */
  method AppendMatchingRows(fs: Fs, service: string, matching: set<string>, table: seq<Row>)
    returns (table': seq<Row>, ghost block: seq<Row>)
    ensures table' == table + block
    ensures Covers(fs, service, matching, block)
    ensures table'[..|table|] == table && |table'| == |table| + |matching|
    ensures forall j :: |table| <= j < |table'| ==>
      table'[j].filename in matching && table'[j] == RowFor(fs, service, table'[j].filename)
  {
    table', block := table, [];
    var remaining := matching;
    while remaining != {}
      invariant remaining <= matching
      invariant Covers(fs, service, matching - remaining, block)
      invariant table' == table + block
      decreases |remaining|
    {
      var filename :| filename in remaining;
      var devTag := GetImageTag(Open(fs, DevPath(service) + [filename]));
      var qaTag := GetImageTag(Open(fs, QaPath(service) + [filename]));
      var row := Row(service, filename, devTag, qaTag);
      CoversExtend(fs, service, matching, remaining, block, filename);
      table' := table' + [row];
      block := block + [row];
      remaining := remaining - {filename};
    }
    assert matching - remaining == matching;
    AppendedCovered(fs, service, matching, table, block, table');
  }

  /** Lines 34-52 for one service: when both directories exist, append the
      rows of the common `.yaml` names; otherwise append nothing. */
  method AppendServiceRows(fs: Fs, service: string, table: seq<Row>) returns (table': seq<Row>, ghost block: seq<Row>)
    ensures table' == table + block
    ensures Enumerates(fs, service, block)
    ensures table'[..|table|] == table
    ensures forall r :: r in table'[|table|..] ==> r.filename in Matching(fs, service) && r == RowFor(fs, service, r.filename)
    ensures forall f :: f in Matching(fs, service) ==> RowFor(fs, service, f) in table'[|table|..]
  {
    if DevPath(service) in fs.listings && QaPath(service) in fs.listings {
      var matching := CommonYamlNames(fs.listings[DevPath(service)], fs.listings[QaPath(service)]);
      table', block := AppendMatchingRows(fs, service, matching, table);
    } else {
      table', block := table, [];
    }
    assert table'[|table|..] == block;
    EnumeratedBlock(fs, service, block);
  }

  /** The loop of lines 28-52: services in listing order, each contributing
      the block of its matching files. */
  method CollectRows(fs: Fs, services: seq<string>) returns (table: seq<Row>, ghost blocks: seq<seq<Row>>)
    ensures |blocks| == |services| && table == Flatten(blocks)
    ensures forall i :: 0 <= i < |services| ==> Enumerates(fs, services[i], blocks[i])
    ensures |table| == TotalMatches(fs, services)
    ensures forall r :: r in table ==>
      r.service in services && r.filename in Matching(fs, r.service) && r == RowFor(fs, r.service, r.filename)
    ensures forall s, f :: s in services && f in Matching(fs, s) ==> RowFor(fs, s, f) in table
    ensures Distinct(services) ==> DistinctRows(table)
  {
    table, blocks := [], [];
    var i := 0;
    while i < |services|
      invariant 0 <= i <= |services| && |blocks| == i
      invariant table == Flatten(blocks)
      invariant forall k :: 0 <= k < i ==> Enumerates(fs, services[k], blocks[k])
    {
      ghost var block;
      table, block := AppendServiceRows(fs, services[i], table);
      assert (blocks + [block])[..|blocks|] == blocks;
      blocks := blocks + [block];
      i := i + 1;
    }
    CollectedTable(fs, services, blocks);
  }
}
