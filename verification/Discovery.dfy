/**
 * Finding a model's files: from one shard, by the names of the others, or from a directory, by
 * reading everything in it.
 */
module Discovery {
  import opened Prelude
  import opened Assembly
  import opened ShardName

  /** The regular files there are, each parsed if it can be. */
  type Files = map<Path, Option<Shard>>

  function Parsed(files: Files, path: Path): Option<Shard> {
    if path in files then files[path] else None
  }

  function InDir(dir: Path, file: string): Path {
    dir + [Name(file)]
  }

  /** A file that parses and declares a count. */
  predicate Declares(files: Files, path: Path, count: nat) {
    Parsed(files, path).Some? && CountOf(Parsed(files, path).value) == Some(count)
  }

  // ---------------------------------------------------------------------------------------------
  // From one file
  // ---------------------------------------------------------------------------------------------

  predicate AllFound(files: Files, prefix: Path, count: nat) {
    forall i :: 1 <= i <= count ==> Parsed(files, ShardPath(prefix, i, count)).Some?
  }

  function Looked(files: Files, prefix: Path, count: nat): seq<Shard>
    requires AllFound(files, prefix, count)
  {
    seq(count, k requires 0 <= k < count => Parsed(files, ShardPath(prefix, k + 1, count)).value)
  }

  /** Which model a file stands for. */
  ghost predicate FileOpens(files: Files, dir: Path, file: string, shards: seq<Shard>) {
    var path := InDir(dir, file);
    && Parsed(files, path).Some? && CountOf(Parsed(files, path).value).Some?
    && var count := CountOf(Parsed(files, path).value).value;
       if count <= 1 then shards == [Parsed(files, path).value]
       else
         && SplitPrefix(dir, file).Some? && SplitPrefix(dir, file).value.1 == count
         && AllFound(files, SplitPrefix(dir, file).value.0, count)
         && Assembles(Looked(files, SplitPrefix(dir, file).value.0, count), count, shards)
  }

  method DiscoverFromFile(files: Files, dir: Path, file: string) returns (r: Result<seq<Shard>, AssemblyError>)
    ensures r.Ok? ==> FileOpens(files, dir, file, r.value)
    ensures r.Err? ==> forall shards :: !FileOpens(files, dir, file, shards)
  {
    hide Complete, ReadFileName, ShardPath, Join;
    var model := Parsed(files, InDir(dir, file));
    if model.None? || CountOf(model.value).None? {
      return Err(Rejected);
    }
    var count := CountOf(model.value).value;
    if count <= 1 {
      return Ok([model.value]);
    }
    var split := SplitPrefix(dir, file);
    if split.None? || split.value.1 != count {
      return Err(Rejected);
    }
    var prefix := split.value.0;
    var candidates: seq<Shard> := [];
    for index := 1 to count + 1
      invariant |candidates| == index - 1
      invariant forall i :: 1 <= i < index ==>
                  Parsed(files, ShardPath(prefix, i, count)) == Some(candidates[i - 1])
    {
      var found := Parsed(files, ShardPath(prefix, index, count));
      if found.None? {
        return Err(Rejected);
      }
      candidates := candidates + [found.value];
    }
    assert candidates == Looked(files, prefix, count);
    r := AssembleShards(count, candidates);
  }

  /** Two shards named alike that declare the same count open the same models, whatever the stem. */
  lemma {:induction false} ShardsOpenAlike(
    files: Files, dir: Path, stem: string, index: nat, other: nat, count: nat, shards: seq<Shard>)
    requires 1 <= index <= count && 1 <= other <= count && 1 < count <= 0xFFFF_FFFF
    requires Declares(files, InDir(dir, FileNameOf(stem, index, count)), count)
    requires Declares(files, InDir(dir, FileNameOf(stem, other, count)), count)
    ensures FileOpens(files, dir, FileNameOf(stem, index, count), shards)
      <==> FileOpens(files, dir, FileNameOf(stem, other, count), shards)
  {
    hide Complete, ReadFileName, ShardPath, Join, FileNameOf;
    ReadWrittenName(stem, index, count);
    ReadWrittenName(stem, other, count);
  }

  /** When a shard opens a model, so does every other of its set, and all of them are in it. */
  lemma {:induction false} AnyShardOpensTheModel(
    files: Files, dir: Path, stem: string, index: nat, other: nat, count: nat, shards: seq<Shard>)
    requires !Anonymous(stem) && 1 <= index <= count && 1 <= other <= count && 1 < count <= 0xFFFF_FFFF
    requires Declares(files, InDir(dir, FileNameOf(stem, index, count)), count)
    requires FileOpens(files, dir, FileNameOf(stem, index, count), shards)
    ensures FileOpens(files, dir, FileNameOf(stem, other, count), shards)
    ensures Parsed(files, InDir(dir, FileNameOf(stem, other, count))).value in shards
  {
    hide Complete, ReadFileName, ShardPath, Join, FileNameOf;
    var prefix := dir + [Name(stem)];
    ShardsLeadToEachOther(dir, stem, index, other, count);
    ShardsLeadToEachOther(dir, stem, other, other, count);
    var candidates := Looked(files, prefix, count);
    assert Parsed(files, ShardPath(prefix, other, count)).Some?;
    assert candidates[other - 1] == Parsed(files, InDir(dir, FileNameOf(stem, other, count))).value;
    AllAdmitted(candidates, count, shards);
    SameElements(candidates, shards);
  }

  // ---------------------------------------------------------------------------------------------
  // From a directory
  // ---------------------------------------------------------------------------------------------

  predicate AllParse(files: Files, dir: Path, listing: seq<string>) {
    forall k :: 0 <= k < |listing| ==>
      Parsed(files, InDir(dir, listing[k])).Some? && CountOf(Parsed(files, InDir(dir, listing[k])).value).Some?
  }

  function Models(files: Files, dir: Path, listing: seq<string>): seq<Shard>
    requires AllParse(files, dir, listing)
  {
    seq(|listing|, k requires 0 <= k < |listing| => Parsed(files, InDir(dir, listing[k])).value)
  }

  /** Every file is a shard of one and the same set. */
  predicate OneSet(files: Files, dir: Path, listing: seq<string>, prefix: Path, count: nat) {
    forall k :: 0 <= k < |listing| ==>
      Declares(files, InDir(dir, listing[k]), count) && SplitPrefix(dir, listing[k]) == Some((prefix, count))
  }

  /** Which model the `.gguf` files listed in a directory are. */
  ghost predicate DirOpens(files: Files, dir: Path, listing: seq<string>, shards: seq<Shard>) {
    && AllParse(files, dir, listing)
    && ( || (|listing| == 1 && CountOf(Models(files, dir, listing)[0]).value <= 1 && shards == Models(files, dir, listing))
         || SplitDirOpens(files, dir, listing, shards))
  }

  ghost predicate SplitDirOpens(files: Files, dir: Path, listing: seq<string>, shards: seq<Shard>)
    requires AllParse(files, dir, listing)
  {
    exists prefix, count :: count > 1 && OneSet(files, dir, listing, prefix, count) &&
      Assembles(Models(files, dir, listing), count, shards)
  }

  predicate NoneSplit(models: seq<Shard>) {
    forall a :: 0 <= a < |models| ==> CountOf(models[a]).Some? && CountOf(models[a]).value <= 1
  }

  predicate AllSplit(models: seq<Shard>) {
    forall a :: 0 <= a < |models| ==> CountOf(models[a]).Some? && CountOf(models[a]).value > 1
  }

  lemma {:induction false} SplitNext(models: seq<Shard>, model: Shard)
    requires CountOf(model).Some?
    ensures NoneSplit(models + [model]) <==> NoneSplit(models) && CountOf(model).value <= 1
    ensures AllSplit(models + [model]) <==> AllSplit(models) && CountOf(model).value > 1
  {
    var more := models + [model];
    assert more[|models|] == model && forall a :: 0 <= a < |models| ==> more[a] == models[a];
    assert NoneSplit(more) ==> CountOf(more[|models|]).value <= 1;
  }

  method DiscoverFromDir(files: Files, dir: Path, listing: seq<string>) returns (r: Result<seq<Shard>, AssemblyError>)
    ensures r.Ok? ==> DirOpens(files, dir, listing, r.value)
    ensures r.Err? ==> forall shards :: !DirOpens(files, dir, listing, shards)
  {
    if listing == [] {
      EmptyOpensNothing(files, dir);
      return Err(Rejected);
    }
    var models: seq<Shard> := [];
    var splits := 0;
    for k := 0 to |listing|
      invariant AllParse(files, dir, listing[..k]) && models == Models(files, dir, listing[..k])
      invariant 0 <= splits <= k == |models|
      invariant (splits == 0 <==> NoneSplit(models)) && (splits == k <==> AllSplit(models))
    {
      var model := Parsed(files, InDir(dir, listing[k]));
      if model.None? || CountOf(model.value).None? {
        return Err(Rejected);
      }
      assert listing[..k + 1] == listing[..k] + [listing[k]];
      SplitNext(models, model.value);
      models := models + [model.value];
      if CountOf(model.value).value > 1 {
        splits := splits + 1;
      }
    }
    assert listing[..|listing|] == listing;
    if splits == 0 {
      if |models| != 1 {
        return Err(Rejected);
      }
      return Ok(models);
    }
    if splits != |models| {
      return Err(Rejected);
    }
    r := AssembleGroup(files, dir, listing, models);
  }

  /** Groups the files by prefix and count; there must be one group. */
  method AssembleGroup(files: Files, dir: Path, listing: seq<string>, models: seq<Shard>)
    returns (r: Result<seq<Shard>, AssemblyError>)
    requires listing != [] && AllParse(files, dir, listing) && models == Models(files, dir, listing)
    requires AllSplit(models)
    ensures r.Ok? ==> SplitDirOpens(files, dir, listing, r.value)
    ensures r.Err? ==> forall shards :: !SplitDirOpens(files, dir, listing, shards)
  {
    hide Complete, CountOf, SplitPrefix;
    var groups: map<(Path, nat), seq<Shard>> := map[];
    for k := 0 to |listing|
      invariant Grouped(dir, listing, models, k, groups)
    {
      var split := SplitPrefix(dir, listing[k]);
      if split.None? || Some(split.value.1) != CountOf(models[k]) {
        return Err(Rejected);
      }
      var key := split.value;
      var before := if key in groups then groups[key] else [];
      GroupedNext(dir, listing, models, k, groups, key);
      groups := groups[key := before + [models[k]]];
    }
    var key := SplitPrefix(dir, listing[0]).value;
    if |groups| != 1 {
      ManyGroups(groups, key);
      return Err(Rejected);
    }
    OneGroup(groups, key);
    GroupedWhole(files, dir, listing, models, groups, key);
    r := AssembleShards(key.1, groups[key]);
  }

  lemma {:induction false} GroupedWhole(
    files: Files, dir: Path, listing: seq<string>, models: seq<Shard>, groups: map<(Path, nat), seq<Shard>>, key: (Path, nat))
    requires listing != [] && AllParse(files, dir, listing) && models == Models(files, dir, listing)
    requires Grouped(dir, listing, models, |listing|, groups) && AllSplit(models)
    requires key in groups && forall other :: other in groups ==> other == key
    ensures OneSet(files, dir, listing, key.0, key.1) && groups[key] == models && 1 < key.1 <= 0xFFFF_FFFF
  {
    hide SplitPrefix;
    assert CountOf(models[0]) == Some(SplitPrefix(dir, listing[0]).value.1);
    forall k | 0 <= k < |listing|
      ensures SplitPrefix(dir, listing[k]) == Some(key) && Declares(files, InDir(dir, listing[k]), key.1)
    {
      assert CountOf(models[k]) == Some(SplitPrefix(dir, listing[k]).value.1);
    }
    assert models[..|listing|] == models;
  }

  /** The first `k` files, each under its prefix and count; all under one only as they came. */
  ghost predicate Grouped(dir: Path, listing: seq<string>, models: seq<Shard>, k: nat, groups: map<(Path, nat), seq<Shard>>)
    requires k <= |listing| == |models|
  {
    && (forall a :: 0 <= a < k ==>
          && SplitPrefix(dir, listing[a]).Some?
          && CountOf(models[a]) == Some(SplitPrefix(dir, listing[a]).value.1)
          && SplitPrefix(dir, listing[a]).value in groups)
    && (forall key :: key in groups ==> exists a :: 0 <= a < k && SplitPrefix(dir, listing[a]) == Some(key))
    && (forall key :: key in groups && (forall a :: 0 <= a < k ==> SplitPrefix(dir, listing[a]) == Some(key)) ==>
          groups[key] == models[..k])
  }

  lemma {:induction false} GroupedNext(
    dir: Path, listing: seq<string>, models: seq<Shard>, k: nat, groups: map<(Path, nat), seq<Shard>>, key: (Path, nat))
    requires k < |listing| == |models| && Grouped(dir, listing, models, k, groups)
    requires SplitPrefix(dir, listing[k]) == Some(key) && CountOf(models[k]) == Some(key.1)
    ensures Grouped(dir, listing, models, k + 1, groups[key := (if key in groups then groups[key] else []) + [models[k]]])
  {
    hide SplitPrefix, CountOf;
    var before := if key in groups then groups[key] else [];
    var after := groups[key := before + [models[k]]];
    forall other | other in after
      ensures exists a :: 0 <= a < k + 1 && SplitPrefix(dir, listing[a]) == Some(other)
    {
      if other in groups {
        var a :| 0 <= a < k && SplitPrefix(dir, listing[a]) == Some(other);
      } else {
        assert SplitPrefix(dir, listing[k]) == Some(other);
      }
    }
    forall other | other in after && forall a :: 0 <= a < k + 1 ==> SplitPrefix(dir, listing[a]) == Some(other)
      ensures after[other] == models[..k + 1]
    {
      assert SplitPrefix(dir, listing[k]) == Some(other);
      if k > 0 {
        assert SplitPrefix(dir, listing[0]) == Some(other);
      }
      assert models[..k + 1] == models[..k] + [models[k]];
    }
  }

  lemma {:induction false} EmptyOpensNothing(files: Files, dir: Path)
    ensures forall shards :: !DirOpens(files, dir, [], shards)
  {
    assert Models(files, dir, []) == [];
    forall shards, count: nat | count > 1 ensures !Assembles([], count, shards) {
      WrongCountRefuses([], count);
    }
  }

  lemma {:induction false} OneGroup<K, V>(groups: map<K, V>, key: K)
    requires key in groups && |groups| == 1
    ensures forall other :: other in groups ==> other == key
  {
    assert |groups.Keys - {key}| == 0;
    forall other | other in groups ensures other == key {
      assert other !in groups.Keys - {key};
    }
  }

  lemma {:induction false} ManyGroups<K, V>(groups: map<K, V>, key: K)
    requires key in groups && |groups| != 1
    ensures exists other :: other in groups && other != key
  {
    var rest := groups.Keys - {key};
    assert |rest| == |groups| - 1 && |groups.Keys| > 0;
    var other :| other in rest;
  }

  // ---------------------------------------------------------------------------------------------
  // Both ways agree
  // ---------------------------------------------------------------------------------------------

  predicate Distinct<T(==)>(s: seq<T>) {
    forall i, j :: 0 <= i < j < |s| ==> s[i] != s[j]
  }

  function Without<T>(s: seq<T>, j: nat): seq<T>
    requires j < |s|
  {
    s[..j] + s[j + 1..]
  }

  /** As many different numbers as there are places fill all places. */
  lemma {:induction false} Surjective(p: seq<nat>, v: nat)
    requires Distinct(p) && (forall k :: 0 <= k < |p| ==> p[k] < |p|) && v < |p|
    ensures v in p
    decreases |p|
  {
    var n := |p| - 1;
    if n !in p {
      var rest := p[..n];
      forall k | 0 <= k < n ensures rest[k] < n {
        assert p[k] in p;
      }
      assert p[n] in p;
      Surjective(rest, p[n]);
      assert false;
    } else if v != n {
      var j :| 0 <= j < |p| && p[j] == n;
      var rest := Without(p, j);
      forall k | 0 <= k < n ensures rest[k] < n {
        assert rest[k] == p[if k < j then k else k + 1];
      }
      Surjective(rest, v);
      assert v in rest;
    }
  }

  lemma {:induction false} RestDistinct(p: seq<nat>, j: nat)
    requires j < |p| && Distinct(p) && p[j] == |p| - 1 && forall k :: 0 <= k < |p| ==> p[k] < |p|
    ensures Distinct(Without(p, j)) && forall k :: 0 <= k < |p| - 1 ==> Without(p, j)[k] < |p| - 1
  {
    var rest := Without(p, j);
    forall k | 0 <= k < |p| - 1 ensures rest[k] < |p| - 1 && rest[k] == p[if k < j then k else k + 1] {
      var at := if k < j then k else k + 1;
      assert rest[k] == p[at] && p[at] != p[j];
    }
  }

  lemma {:induction false} Rearranged<T>(a: seq<T>, b: seq<T>, p: seq<nat>)
    requires |a| == |b| == |p| && Distinct(p)
    requires forall k :: 0 <= k < |p| ==> p[k] < |b| && a[k] == b[p[k]]
    ensures multiset(a) == multiset(b)
  {
    if p != [] {
      var n := |p| - 1;
      Surjective(p, n);
      var j :| 0 <= j < |p| && p[j] == n;
      var places, rest := Without(p, j), Without(a, j);
      RestDistinct(p, j);
      forall k | 0 <= k < n ensures rest[k] == b[..n][places[k]] {
        assert rest[k] == a[if k < j then k else k + 1];
      }
      Rearranged(rest, b[..n], places);
      TakeOut(a, j);
      TakeOut(b, n);
      assert Without(b, n) == b[..n];
    }
  }

  lemma {:induction false} SameStem(dir: Path, stem: string, other: string)
    requires !Anonymous(stem) && Join(dir, stem) == Join(dir, other)
    ensures stem == other
  {
    assert Join(dir, stem)[|dir|] == Name(stem);
  }

  const UPPER_SUFFIX := ".GGUF"

  /** The extension is compared without regard to case. */
  predicate IsGguf(file: string) {
    && |file| > |SUFFIX|
    && forall i :: 0 <= i < |SUFFIX| ==>
         file[|file| - |SUFFIX| + i] == SUFFIX[i] || file[|file| - |SUFFIX| + i] == UPPER_SUFFIX[i]
  }

  /** A listing names each `.gguf` file of a directory once. */
  ghost predicate Lists(files: Files, dir: Path, listing: seq<string>) {
    && Distinct(listing)
    && (forall k :: 0 <= k < |listing| ==> InDir(dir, listing[k]) in files && IsGguf(listing[k]))
    && (forall file :: InDir(dir, file) in files && IsGguf(file) ==> file in listing)
  }

  lemma {:induction false} Listed(files: Files, dir: Path, listing: seq<string>, stem: string, index: nat, count: nat)
    requires Lists(files, dir, listing) && InDir(dir, FileNameOf(stem, index, count)) in files
    ensures FileNameOf(stem, index, count) in listing
  {
    var file := FileNameOf(stem, index, count);
    assert file[|file| - |SUFFIX|..] == SUFFIX;
    forall i | 0 <= i < |SUFFIX| ensures file[|file| - |SUFFIX| + i] == SUFFIX[i] {
      assert file[|file| - |SUFFIX|..][i] == SUFFIX[i];
    }
  }

  /** The place in its set that a shard's name gives it. */
  function OwnPlace(file: string): nat {
    if ReadFileName(file).Some? && ReadFileName(file).value.index > 0 then ReadFileName(file).value.index - 1 else 0
  }

  /** A shard without a plus sign in its name is looked for under its own index. */
  lemma {:induction false} OwnIndex(dir: Path, stem: string, file: string, count: nat)
    requires !Anonymous(stem) && SplitPrefix(dir, file) == Some((dir + [Name(stem)], count))
    ensures count <= 99999 && OwnPlace(file) < count
    ensures CutName(file).Some?
    ensures !Signed(file) ==>
              ShardPath(dir + [Name(stem)], OwnPlace(file) + 1, count) == InDir(dir, file)
    ensures forall i :: 1 <= i <= count && FileNameOf(stem, i, count) == file ==> !Signed(file)
  {
    hide ShardPath, Joined, CutLast, Number;
    var named := ReadFileName(file).value;
    SameStem(dir, stem, named.stem);
    FiveDigits(CutName(file).value.count);
    WriteReadName(file, named.index);
    ShardsLeadToEachOther(dir, stem, named.index, named.index, count);
    forall i | 1 <= i <= count && FileNameOf(stem, i, count) == file ensures !Signed(file) {
      WriteReadName(file, i);
    }
  }

  /** A set with unsigned names is found again from any of its files. */
  lemma {:induction false} UnsignedAgrees(
    files: Files, dir: Path, listing: seq<string>, prefix: Path, stem: string, count: nat, shards: seq<Shard>)
    requires Distinct(listing) && AllParse(files, dir, listing) && !Anonymous(stem) && prefix == dir + [Name(stem)]
    requires OneSet(files, dir, listing, prefix, count) && Assembles(Models(files, dir, listing), count, shards)
    requires forall k :: 0 <= k < |listing| ==> CutName(listing[k]).Some? && !Signed(listing[k])
    ensures AllFound(files, prefix, count) && Assembles(Looked(files, prefix, count), count, shards)
  {
    hide ReadFileName, ShardPath, SplitPrefix, Complete, CutName, Signed;
    var models := Models(files, dir, listing);
    AllAdmitted(models, count, shards);
    forall k | 0 <= k < count
      ensures OwnPlace(listing[k]) < count && ShardPath(prefix, OwnPlace(listing[k]) + 1, count) == InDir(dir, listing[k])
    {
      OwnIndex(dir, stem, listing[k], count);
    }
    var p := seq(count, k requires 0 <= k < count => OwnPlace(listing[k]));
    forall i, j | 0 <= i < j < count ensures p[i] != p[j] {
      assert InDir(dir, listing[i])[|dir|] == Name(listing[i]) && InDir(dir, listing[j])[|dir|] == Name(listing[j]);
    }
    forall i | 1 <= i <= count ensures Parsed(files, ShardPath(prefix, i, count)).Some? {
      Surjective(p, i - 1);
      var k :| 0 <= k < count && p[k] == i - 1;
      assert ShardPath(prefix, OwnPlace(listing[k]) + 1, count) == InDir(dir, listing[k]);
    }
    Rearranged(models, Looked(files, prefix, count), p);
  }

  lemma {:induction false} FoundIsListed(files: Files, dir: Path, listing: seq<string>, stem: string, i: nat, count: nat)
    requires Lists(files, dir, listing) && !Anonymous(stem) && 1 <= i <= count <= 0xFFFF_FFFF
    requires AllFound(files, dir + [Name(stem)], count)
    ensures FileNameOf(stem, i, count) in listing
  {
    hide FileNameOf, IsGguf, ReadFileName;
    ShardsLeadToEachOther(dir, stem, i, i, count);
    assert Parsed(files, ShardPath(dir + [Name(stem)], i, count)).Some?;
    Listed(files, dir, listing, stem, i, count);
  }

  /** A set found from one of its files has unsigned names. */
  lemma {:induction false} FoundIsUnsigned(
    files: Files, dir: Path, listing: seq<string>, prefix: Path, stem: string, count: nat, k: nat)
    requires Lists(files, dir, listing) && !Anonymous(stem) && prefix == dir + [Name(stem)]
    requires OneSet(files, dir, listing, prefix, count) && |listing| == count && k < count
    requires AllFound(files, prefix, count) && CutName(listing[k]).Some?
    ensures !Signed(listing[k])
  {
    hide ReadFileName, ShardPath, SplitPrefix, CutName, Signed, FileNameOf, IsGguf, PlaceOf;
    OwnIndex(dir, stem, listing[k], count);
    forall i | 1 <= i <= count ensures FileNameOf(stem, i, count) in listing {
      FoundIsListed(files, dir, listing, stem, i, count);
    }
    var q: seq<nat> := seq(count, i requires 0 <= i < count => PlaceOf(listing, FileNameOf(stem, i + 1, count)));
    forall i, j | 0 <= i < j < count ensures q[i] != q[j] {
      if q[i] == q[j] {
        assert FileNameOf(stem, i + 1, count) == listing[q[i]] == FileNameOf(stem, j + 1, count);
        NamesDiffer(stem, i + 1, j + 1, count);
        assert false;
      }
    }
    Surjective(q, k);
    var i :| 0 <= i < count && q[i] == k;
    assert FileNameOf(stem, i + 1, count) == listing[k];
  }

  function PlaceOf(listing: seq<string>, file: string): (k: nat)
    requires file in listing
    ensures k < |listing| && listing[k] == file
  {
    if listing[0] == file then 0 else 1 + PlaceOf(listing[1..], file)
  }

  /** There are no files but those of the directory itself. */
  ghost predicate OnlyHere(files: Files, dir: Path) {
    forall path :: path in files ==> |path| == |dir| + 1 && path[..|dir|] == dir
  }

  /** With no other files about, such a shard opens nothing, even where its directory does. */
  lemma {:induction false} AnonymousOpensNothing(
    files: Files, dir: Path, listing: seq<string>, prefix: Path, count: nat, k: nat, shards: seq<Shard>)
    requires Lists(files, dir, listing) && OnlyHere(files, dir) && k < |listing|
    requires count > 1 && OneSet(files, dir, listing, prefix, count)
    requires ReadFileName(listing[k]).Some? && Anonymous(ReadFileName(listing[k]).value.stem)
    ensures !FileOpens(files, dir, listing[k], shards)
  {
    hide Complete, ReadFileName, FileNameOf, ShardPath;
    var path := ShardPath(prefix, 1, count);
    AnonymousLooksElsewhere(dir, ReadFileName(listing[k]).value.stem, 1, count);
    if path in files {
      Listed(files, dir, listing, "model", 1, count);
      var j := PlaceOf(listing, FileNameOf("model", 1, count));
      assert SplitPrefix(dir, listing[j]) == Some((prefix, count));
      SmallCount(dir, listing[k]);
      ShardsLeadToEachOther(dir, "model", 1, 1, count);
      AnonymousIsNoModel(dir, ReadFileName(listing[k]).value.stem);
      assert false;
    }
    assert !AllFound(files, prefix, count);
  }

  lemma {:induction false} SmallCount(dir: Path, file: string)
    requires SplitPrefix(dir, file).Some?
    ensures SplitPrefix(dir, file).value.1 <= 99999
  {
    FiveDigits(CutName(file).value.count);
  }

  lemma {:induction false} AnonymousIsNoModel(dir: Path, stem: string)
    requires Anonymous(stem)
    ensures Join(dir, stem) != dir + [Name("model")]
  {
    assert |dir + [Name("model")]| == |dir| + 1;
    assert (dir + [Up])[|dir|] == Up && (dir + [Name("model")])[|dir|] == Name("model");
  }

  /**
   * Opening a directory that holds one split set and opening a file in it give the same model, for
   * a stem that is a file name, exactly when no shard number is written with a plus sign. With no
   * files outside the directory they agree exactly when, besides, the stem is a file name.
   */
  lemma {:induction false} DirectoryAgreesWithFile(
    files: Files, dir: Path, listing: seq<string>, k: nat, shards: seq<Shard>)
    requires Lists(files, dir, listing) && AllParse(files, dir, listing) && SplitDirOpens(files, dir, listing, shards)
    requires k < |listing|
    ensures forall a :: 0 <= a < |listing| ==> CutName(listing[a]).Some?
    ensures ReadFileName(listing[k]).Some?
    ensures !Anonymous(ReadFileName(listing[k]).value.stem) ==>
      (FileOpens(files, dir, listing[k], shards) <==> Unsigned(listing))
    ensures
      var agrees := Unsigned(listing) && !Anonymous(ReadFileName(listing[k]).value.stem);
      OnlyHere(files, dir) ==> (FileOpens(files, dir, listing[k], shards) <==> agrees)
  {
    hide Complete, ReadFileName, CutName, Signed, ShardPath;
    var prefix, count :| count > 1 && OneSet(files, dir, listing, prefix, count) &&
      Assembles(Models(files, dir, listing), count, shards);
    forall a | 0 <= a < |listing| ensures CutName(listing[a]).Some? && ReadFileName(listing[a]).Some? {
      assert SplitPrefix(dir, listing[a]) == Some((prefix, count));
      NameParts(dir, listing[a]);
    }
    if !Anonymous(ReadFileName(listing[k]).value.stem) {
      NamedAgrees(files, dir, listing, prefix, count, k, shards);
    } else if OnlyHere(files, dir) {
      AnonymousOpensNothing(files, dir, listing, prefix, count, k, shards);
    }
  }

  lemma {:induction false} NameParts(dir: Path, file: string)
    requires SplitPrefix(dir, file).Some?
    ensures CutName(file).Some? && ReadFileName(file).Some?
  {}

  /** No shard number carries a plus sign. */
  ghost predicate Unsigned(listing: seq<string>)
    requires forall a :: 0 <= a < |listing| ==> CutName(listing[a]).Some?
  {
    forall a :: 0 <= a < |listing| ==> !Signed(listing[a])
  }

  lemma {:induction false} NamedAgrees(
    files: Files, dir: Path, listing: seq<string>, prefix: Path, count: nat, k: nat, shards: seq<Shard>)
    requires Lists(files, dir, listing) && AllParse(files, dir, listing) && k < |listing|
    requires count > 1 && OneSet(files, dir, listing, prefix, count) && Assembles(Models(files, dir, listing), count, shards)
    requires forall a :: 0 <= a < |listing| ==> CutName(listing[a]).Some?
    requires ReadFileName(listing[k]).Some? && !Anonymous(ReadFileName(listing[k]).value.stem)
    ensures FileOpens(files, dir, listing[k], shards) <==> Unsigned(listing)
  {
    hide Complete, ReadFileName, CutName, Signed, ShardPath;
    var stem := ReadFileName(listing[k]).value.stem;
    AllAdmitted(Models(files, dir, listing), count, shards);
    assert Declares(files, InDir(dir, listing[k]), count);
    assert SplitPrefix(dir, listing[k]) == Some((prefix, count)) && prefix == dir + [Name(stem)];
    if Unsigned(listing) {
      UnsignedAgrees(files, dir, listing, prefix, stem, count, shards);
    }
    if FileOpens(files, dir, listing[k], shards) {
      forall a | 0 <= a < |listing| ensures !Signed(listing[a]) {
        FoundIsUnsigned(files, dir, listing, prefix, stem, count, a);
      }
    }
  }
}
