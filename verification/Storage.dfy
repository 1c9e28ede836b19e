/** The epoch directory: one numbered JSON file per epoch and a copy of the last one written. */
module Storage {
  import opened Bytes
  import opened Results
  import opened Rewards
  import opened Decimal

  datatype Claim = Claim(index: nat, lamports: string, proof: seq<string>)

  datatype EpochResult = EpochResult(
    epochId: nat,
    startedAt: int,
    endedAt: int,
    snapshotSlot: nat,
    marketCapUsd: real,
    solPriceUsd: real,
    pool: Pool,
    poolLamports: int,
    merkleRoot: string,
    participants: nat,
    scores: seq<ParticipantScore>,
    claims: map<Pubkey, Claim>,
    totalLamports: string,
    saberDistributor: Option<Pubkey>,
    saberDistributorBase: Option<Pubkey>,
    saberPublishedAt: Option<int>)

  type Directory = map<string, EpochResult>

  const LATEST := "latest.json"
  const PREFIX := "epoch-"
  const SUFFIX := ".json"

  // ------------------------------------------------------------ file names

  /** `epoch-` + the id padded to six digits + `.json` */
  function FileName(id: nat): string {
    PREFIX + PadStart(Print(id), 6) + SUFFIX
  }

  /** The id in a name of the form epoch-<digits>.json, of any number of digits. */
  function ParseName(name: string): Option<nat> {
    if |name| <= |PREFIX| + |SUFFIX| || name[..6] != PREFIX || name[|name| - 5..] != SUFFIX then None
    else if !AllDigits(name[6..|name| - 5]) then None
    else Some(Value(name[6..|name| - 5]))
  }

  /** Printing and parsing names undo each other, past six digits too. */
  lemma NameRoundTrip(id: nat)
    ensures ParseName(FileName(id)) == Some(id) && FileName(id) != LATEST
  {
    var digits := PadStart(Print(id), 6);
    PadStartValue(Print(id), 6);
    var name := FileName(id);
    assert name[6..|name| - 5] == digits;
    assert name[0] == 'e' && LATEST[0] == 'l';
  }

  /** A name is `epoch-`, at least six digits and `.json`: six exactly for ids below a million, and
      the id's own digits from there on. */
  lemma NameIsPadded(id: nat)
    ensures var name := FileName(id);
      && |name| >= 17 && name[..6] == "epoch-" && name[|name| - 5..] == ".json"
      && AllDigits(name[6..|name| - 5]) && Value(name[6..|name| - 5]) == id
      && (id < 1_000_000 ==> |name| == 17)
      && (id >= 1_000_000 ==> name[6..|name| - 5] == Print(id))
    ensures LATEST == "latest.json"
  {
    var digits := PadStart(Print(id), 6);
    PadStartValue(Print(id), 6);
    PrintWidth(id, 6);
    var name := FileName(id);
    assert name[6..|name| - 5] == digits;
    assert Pow10(3) == 1000;
    assert Pow10(6) == 1_000_000 by {
      assert Pow10(4) == 10 * Pow10(3) && Pow10(5) == 10 * Pow10(4);
    }
  }

  lemma LatestIsNoEpoch()
    ensures ParseName(LATEST) == None
  {
    assert LATEST[0] == 'l' && PREFIX[0] == 'e';
  }

  // ------------------------------------------------------------ listing

  predicate Ascending(ids: seq<nat>) {
    forall i, j :: 0 <= i < j < |ids| ==> ids[i] <= ids[j]
  }

  function Insert(x: nat, ids: seq<nat>): (r: seq<nat>)
    ensures |r| == |ids| + 1
  {
    if ids == [] || x <= ids[0] then [x] + ids else [ids[0]] + Insert(x, ids[1..])
  }

  function Sort(ids: seq<nat>): seq<nat> {
    if ids == [] then [] else Insert(ids[0], Sort(ids[1..]))
  }

  lemma ConsAscending(x: nat, ids: seq<nat>)
    requires Ascending(ids) && (ids == [] || x <= ids[0])
    ensures Ascending([x] + ids)
  {
  }

  lemma FirstAndRest(ids: seq<nat>)
    requires ids != []
    ensures multiset(ids) == multiset(ids[1..]) + multiset{ids[0]}
  {
    assert ids == [ids[0]] + ids[1..];
  }

  lemma TailAscending(ids: seq<nat>)
    requires Ascending(ids) && ids != []
    ensures Ascending(ids[1..]) && (ids[1..] != [] ==> ids[0] <= ids[1..][0])
  {
  }

  lemma {:induction false} InsertKeepsOrder(x: nat, ids: seq<nat>)
    requires Ascending(ids)
    ensures Ascending(Insert(x, ids))
    ensures Insert(x, ids)[0] == x || (ids != [] && Insert(x, ids)[0] == ids[0])
  {
    hide Ascending;
    if ids == [] || x <= ids[0] {
      ConsAscending(x, ids);
    } else {
      TailAscending(ids);
      InsertKeepsOrder(x, ids[1..]);
      ConsAscending(ids[0], Insert(x, ids[1..]));
    }
  }

  lemma {:induction false} InsertAddsOne(x: nat, ids: seq<nat>)
    ensures multiset(Insert(x, ids)) == multiset(ids) + multiset{x}
  {
    FirstAndRest(Insert(x, ids));
    if ids == [] || x <= ids[0] {
      assert Insert(x, ids)[1..] == ids;
    } else {
      InsertAddsOne(x, ids[1..]);
      FirstAndRest(ids);
      assert Insert(x, ids)[1..] == Insert(x, ids[1..]);
    }
  }

  lemma {:induction false} SortIsAPermutation(ids: seq<nat>)
    ensures Ascending(Sort(ids)) && multiset(Sort(ids)) == multiset(ids)
  {
    if ids != [] {
      SortIsAPermutation(ids[1..]);
      hide Ascending;
      InsertKeepsOrder(ids[0], Sort(ids[1..]));
      InsertAddsOne(ids[0], Sort(ids[1..]));
      FirstAndRest(ids);
    }
  }

  function ParsedIds(names: seq<string>): seq<nat> {
    if names == [] then []
    else
      var rest := ParsedIds(names[1..]);
      match ParseName(names[0])
      case None => rest
      case Some(id) => [id] + rest
  }

  /** Ids of the epoch files among `names`, ascending, for the names in whatever order the file
      system returns them. */
  function ListEpochIds(names: seq<string>): seq<nat> {
    Sort(ParsedIds(names))
  }

  function NextEpochId(names: seq<string>): nat {
    var ids := ListEpochIds(names);
    if ids == [] then 0 else ids[|ids| - 1] + 1
  }

  /** `names` is what reading the directory returns: every file once, in any order. */
  ghost predicate IsListing(names: seq<string>, files: Directory) {
    && (forall i, j :: 0 <= i < j < |names| ==> names[i] != names[j])
    && (forall name :: name in names <==> name in files)
  }

  // ------------------------------------------------------------ the store

  class EpochStorage {
    var files: Directory

    constructor ()
      ensures files == map[]
    {
      files := map[];
    }

    method Write(result: EpochResult)
      modifies this
      ensures files == Written(old(files), result)
    {
      files := files[FileName(result.epochId) := result];
      files := files[LATEST := result];
    }

    method Read(epochId: nat) returns (r: Option<EpochResult>)
      ensures r == Lookup(files, FileName(epochId))
    {
      if FileName(epochId) in files {
        return Some(files[FileName(epochId)]);
      }
      return None;
    }

    method ReadLatest() returns (r: Option<EpochResult>)
      ensures r == Lookup(files, LATEST)
    {
      if LATEST in files {
        return Some(files[LATEST]);
      }
      return None;
    }
  }

  function Written(files: Directory, result: EpochResult): Directory {
    files[FileName(result.epochId) := result][LATEST := result]
  }

  function Lookup(files: Directory, name: string): Option<EpochResult> {
    if name in files then Some(files[name]) else None
  }

  // ------------------------------------------------------------ ids of a regular directory

  /** Exactly the epochs 0..n-1 are on disk, each under its own id, and `latest.json` is a copy
      of one of them. */
  ghost predicate Regular(files: Directory, n: nat) {
    && (forall i :: 0 <= i < n ==> FileName(i) in files && files[FileName(i)].epochId == i)
    && (forall name :: name in files ==> (name == LATEST && n > 0) || IsEpochName(name, n))
    && (n > 0 ==> LATEST in files)
    && (n > 0 ==> files[LATEST].epochId < n && files[LATEST] == files[FileName(files[LATEST].epochId)])
  }

  ghost predicate IsEpochName(name: string, n: nat) {
    exists i :: 0 <= i < n && name == FileName(i)
  }

  ghost predicate Names(names: seq<string>, id: nat) {
    exists k :: 0 <= k < |names| && ParseName(names[k]) == Some(id)
  }

  lemma {:induction false} ParsedIdsMembers(names: seq<string>, id: nat)
    ensures id in ParsedIds(names) <==> Names(names, id)
  {
    if names != [] {
      ParsedIdsMembers(names[1..], id);
      if Names(names[1..], id) {
        var k :| 0 <= k < |names[1..]| && ParseName(names[1..][k]) == Some(id);
        assert ParseName(names[k + 1]) == Some(id);
      }
      if Names(names, id) && ParseName(names[0]) != Some(id) {
        var k :| 0 <= k < |names| && ParseName(names[k]) == Some(id);
        assert ParseName(names[1..][k - 1]) == Some(id);
      }
      if ParseName(names[0]) == Some(id) {
        assert Names(names, id);
      }
    }
  }

  ghost predicate NoRepeats(ids: seq<nat>) {
    forall i, j :: 0 <= i < j < |ids| ==> ids[i] != ids[j]
  }

  /** In a regular directory the names that parse are the canonical ones, so ids do not repeat. */
  lemma {:induction false} ParsedIdsDistinct(names: seq<string>, n: nat)
    requires forall i, j :: 0 <= i < j < |names| ==> names[i] != names[j]
    requires forall k :: 0 <= k < |names| ==> names[k] == LATEST || IsEpochName(names[k], n)
    ensures NoRepeats(ParsedIds(names))
  {
    hide ParseName, FileName;
    if names != [] {
      ParsedIdsDistinct(names[1..], n);
      if ParseName(names[0]).Some? {
        var id := ParseName(names[0]).value;
        ParsedIdsMembers(names[1..], id);
        if Names(names[1..], id) {
          var k :| 0 <= k < |names[1..]| && ParseName(names[1..][k]) == Some(id);
          assert names[k + 1] == names[1..][k];
          SameIdSameName(names[0], names[k + 1], n);
          assert false;
        }
        FreshFront(id, ParsedIds(names[1..]));
      }
    }
  }

  lemma SameIdSameName(a: string, b: string, n: nat)
    requires a == LATEST || IsEpochName(a, n)
    requires b == LATEST || IsEpochName(b, n)
    requires ParseName(a).Some? && ParseName(a) == ParseName(b)
    ensures a == b
  {
    LatestIsNoEpoch();
    hide ParseName, FileName;
    var i :| 0 <= i < n && a == FileName(i);
    var j :| 0 <= j < n && b == FileName(j);
    NameRoundTrip(i);
    NameRoundTrip(j);
  }

  lemma FreshFront(id: nat, ids: seq<nat>)
    requires NoRepeats(ids) && id !in ids
    ensures NoRepeats([id] + ids)
  {
  }

  lemma {:induction false} SortedRange(ids: seq<nat>, n: nat, i: nat)
    requires Ascending(ids) && NoRepeats(ids)
    requires forall id: nat :: id in ids <==> id < n
    requires i < |ids| || i < n
    ensures i < |ids| && i < n && ids[i] == i
  {
    if i > 0 {
      SortedRange(ids, n, i - 1);
    }
    if i < |ids| {
      assert ids[i] in ids;
      assert forall k :: 0 <= k < i ==> ids[k] <= ids[i];
      if i > 0 { assert ids[i - 1] < ids[i]; }
    }
    if i < n {
      assert i in ids;
      var k :| 0 <= k < |ids| && ids[k] == i;
    }
  }

  lemma NoRepeatsByMultiset(a: seq<nat>, b: seq<nat>)
    requires multiset(a) == multiset(b) && NoRepeats(a)
    ensures NoRepeats(b)
  {
    forall i, j | 0 <= i < j < |b| ensures b[i] != b[j] {
      if b[i] == b[j] {
        CountTwice(b, i, j);
        CountOnce(a, b[i]);
      }
    }
  }

  lemma CountTwice(b: seq<nat>, i: nat, j: nat)
    requires i < j < |b| && b[i] == b[j]
    ensures multiset(b)[b[i]] >= 2
  {
    assert b == b[..j] + [b[j]] + b[j + 1..];
    assert b[i] in b[..j];
  }

  lemma {:induction false} CountOnce(a: seq<nat>, x: nat)
    requires NoRepeats(a)
    ensures multiset(a)[x] <= 1
  {
    if a != [] {
      assert a == [a[0]] + a[1..];
      CountOnce(a[1..], x);
      if x == a[0] {
        assert x !in a[1..];
      }
    }
  }

  /** Listing a regular directory gives 0..n-1 in order, whatever order the names come in, and
      the next id is n. */
  lemma ListingOfRegular(files: Directory, n: nat, names: seq<string>)
    requires Regular(files, n) && IsListing(names, files)
    ensures ListEpochIds(names) == seq(n, i => i)
    ensures NextEpochId(names) == n
  {
    hide ParseName, ParsedIds, FileName, Sort, Ascending, NoRepeats;
    var parsed, ids := ParsedIds(names), ListEpochIds(names);
    NamesOfRegular(files, n, names);
    ParsedIdsDistinct(names, n);
    SortIsAPermutation(parsed);
    NoRepeatsByMultiset(parsed, ids);
    forall id: nat ensures id in ids <==> id < n {
      IdsOfRegular(files, n, names, id);
      assert id in ids <==> id in multiset(parsed);
    }
    IsRange(ids, n);
  }

  lemma NamesOfRegular(files: Directory, n: nat, names: seq<string>)
    requires Regular(files, n) && IsListing(names, files)
    ensures forall k :: 0 <= k < |names| ==> names[k] == LATEST || IsEpochName(names[k], n)
  {
    hide FileName;
    forall k | 0 <= k < |names| ensures names[k] == LATEST || IsEpochName(names[k], n) {
      assert names[k] in names;
    }
  }

  lemma IsRange(ids: seq<nat>, n: nat)
    requires Ascending(ids) && NoRepeats(ids) && forall id: nat :: id in ids <==> id < n
    ensures ids == seq(n, i => i)
  {
    hide Ascending, NoRepeats;
    if |ids| > n {
      SortedRange(ids, n, n);
    }
    if |ids| < n {
      SortedRange(ids, n, |ids|);
    }
    forall i | 0 <= i < n ensures ids[i] == i {
      SortedRange(ids, n, i);
    }
  }

  lemma IdsOfRegular(files: Directory, n: nat, names: seq<string>, id: nat)
    requires Regular(files, n) && IsListing(names, files)
    ensures id in ParsedIds(names) <==> id < n
  {
    ParsedIdsMembers(names, id);
    if id < n {
      NameRoundTrip(id);
      assert FileName(id) in names;
      var k :| 0 <= k < |names| && names[k] == FileName(id);
      assert Names(names, id);
    }
    if Names(names, id) {
      LatestIsNoEpoch();
      var k :| 0 <= k < |names| && ParseName(names[k]) == Some(id);
      assert names[k] in names;
      var i :| 0 <= i < n && names[k] == FileName(i);
      NameRoundTrip(i);
    }
  }
}
