/** Putting the rendered boot configuration in place: four files, each written under a temporary name, then renamed,
    all or none. Any write or rename may fail, and a write that fails may leave something cut short under its name.
    Removing succeeds. */
module BootPublish {
  import opened Octets
  import opened Results

  const FILES := 4

  /** One of the four names, its temporary name, or any other file of the directory. */
  datatype Path = Placed(i: nat) | Temporary(i: nat) | Other(name: string)

  class Directory {
    var files: map<Path, bytes>
    var operations: nat
    const fails: nat -> bool
    const remains: nat -> Option<bytes>

    constructor (files: map<Path, bytes>, fails: nat -> bool, remains: nat -> Option<bytes>)
      ensures this.files == files && operations == 0 && this.fails == fails && this.remains == remains
    {
      this.files, this.operations, this.fails, this.remains := files, 0, fails, remains;
    }

    /** The next n writes and renames, counted from `from`, all succeed. */
    ghost predicate Fine(from: nat, n: nat) { forall k | from < k <= from + n :: !fails(k) }

    method Write(path: Path, data: bytes) returns (ok: bool)
      modifies this
      ensures operations == old(operations) + 1 && ok == !fails(operations)
      ensures ok ==> files == old(files)[path := data]
      ensures !ok ==> files - {path} == old(files) - {path}
    {
      operations := operations + 1;
      ok := !fails(operations);
      if ok {
        files := files[path := data];
      } else if remains(operations).Some? {
        files := files[path := remains(operations).value];
      }
    }

    method Rename(from: Path, to: Path) returns (ok: bool)
      requires from != to
      modifies this
      ensures operations == old(operations) + 1 && ok == (from in old(files) && !fails(operations))
      ensures ok ==> from in old(files) && files == old(files)[to := old(files)[from]] - {from}
      ensures !ok ==> files == old(files)
    {
      operations := operations + 1;
      ok := from in files && !fails(operations);
      if ok { files := files[to := files[from]] - {from}; }
    }

    method Remove(path: Path)
      modifies this`files
      ensures files == old(files) - {path}
    {
      files := files - {path};
    }

    method RemoveAll(paths: seq<Path>)
      modifies this`files
      ensures files == old(files) - AsSet(paths)
    {
      for i := 0 to |paths|
        invariant files == old(files) - AsSet(paths[..i])
      {
        assert AsSet(paths[..i + 1]) == AsSet(paths[..i]) + {paths[i]};
        Remove(paths[i]);
      }
      assert paths[..|paths|] == paths;
    }

    /** Every file under its temporary name; or none, and nothing else changed. */
    method Stage(ghost before: map<Path, bytes>, news: seq<bytes>) returns (ok: bool, written: seq<Path>)
      requires |news| == FILES && files == Staged(before, news, 0, 0)
      modifies this
      ensures ok <==> Fine(old(operations), FILES)
      ensures ok ==> files == Staged(before, news, 0, FILES) && written == Temporaries(0, FILES)
                     && operations == old(operations) + FILES
      ensures !ok ==> files == Undone(before, 0)
    {
      hide Staged, Undone, Temporaries, AsSet;
      NoTemporaries(0);
      var i := 0;
      written := [];
      while i < FILES
        invariant i <= FILES && written == Temporaries(0, i) && files == Staged(before, news, 0, i)
        invariant operations == old(operations) + i && Fine(old(operations), i)
      {
        var wrote := Write(Temporary(i), news[i]);
        if !wrote {
          Remove(Temporary(i));
          RemoveAll(written);
          UndoneWrite(before, news, i);
          return false, written;
        }
        StagedMore(before, news, i);
        written := written + [Temporary(i)];
        i := i + 1;
      }
      ok := true;
    }

    /** Every file renamed onto its name; or those already there removed again. */
    method Place(ghost before: map<Path, bytes>, news: seq<bytes>, staged: seq<Path>) returns (placed: nat)
      requires |news| == FILES && files == Staged(before, news, 0, FILES) && staged == Temporaries(0, FILES)
      modifies this
      ensures placed <= FILES && Fine(old(operations), placed)
      ensures placed < FILES ==> fails(old(operations) + placed + 1)
      ensures placed == FILES ==> files == InPlace(before, news)
      ensures placed < FILES ==> files == Undone(before, placed)
    {
      hide Staged, Undone, Temporaries, AsSet, Places, InPlace;
      var written, there := staged, [];
      placed := 0;
      NoTemporaries(0);
      while placed < FILES
        invariant placed <= FILES && written == Temporaries(placed, FILES) && there == Places(placed)
                  && files == Staged(before, news, placed, FILES)
        invariant operations == old(operations) + placed && Fine(old(operations), placed)
      {
        PlacedMore(before, news, placed);
        ListsMove(placed);
        var renamed := Rename(Temporary(placed), Placed(placed));
        if !renamed {
          UndoneRename(before, news, placed);
          RemoveAll(written + there);
          return placed;
        }
        written, there := written[1..], there + [Placed(placed)];
        placed := placed + 1;
      }
      AllPlaced(before, news);
    }

    /** On success the directory holds exactly the four new files under their names; on failure nothing new under any
        of them, and those placed before the failure are gone. No temporary stays, whatever an earlier run left, and
        no other file changes. It succeeds exactly when none of the four writes and four renames fails. */
    method Publish(news: seq<bytes>) returns (ok: bool, placed: nat)
      requires |news| == FILES
      modifies this
      ensures placed <= FILES && (ok <==> placed == FILES)
      ensures ok <==> Fine(old(operations), 2 * FILES)
      ensures if Fine(old(operations), FILES)
              then && Fine(old(operations), FILES + placed)
                   && (placed < FILES ==> fails(old(operations) + FILES + placed + 1))
              else placed == 0
      ensures ok ==> files == InPlace(old(files), news)
      ensures !ok ==> files == Undone(old(files), placed)
    {
      hide Staged, Undone, Temporaries, AsSet, InPlace;
      ghost var before := files;
      NothingStaged(before, news);
      RemoveAll(Temporaries(0, FILES));
      var staged, written := Stage(before, news);
      if !staged { return false, 0; }
      placed := Place(before, news, written);
      ok := placed == FILES;
    }
  }

  function AsSet(paths: seq<Path>): set<Path> { set p | p in paths }

  function Temporaries(from: nat, to: nat): seq<Path>
    requires from <= to
  {
    seq(to - from, k requires 0 <= k => Temporary(from + k))
  }

  function Places(to: nat): seq<Path> { seq(to, k requires 0 <= k => Placed(k)) }

  function TemporarySet(): set<Path> { {Temporary(0), Temporary(1), Temporary(2), Temporary(3)} }

  function PlacedSet(): set<Path> { {Placed(0), Placed(1), Placed(2), Placed(3)} }

  /** The directory with the first `placed` files in place and the others up to `written` under their temporary
      names. */
  function Staged(before: map<Path, bytes>, news: seq<bytes>, placed: nat, written: nat): map<Path, bytes>
    requires placed <= written <= FILES == |news|
  {
    map p | p in before.Keys + TemporarySet() + PlacedSet()
            && (if p.Temporary? && p.i < FILES then placed <= p.i < written
                else p in before || (p.Placed? && p.i < placed))
         :: if p.Temporary? && p.i < FILES then news[p.i]
            else if p.Placed? && p.i < placed then news[p.i] else before[p]
  }

  /** The four names hold the new files, nothing else is changed, and no temporary is there. */
  function InPlace(before: map<Path, bytes>, news: seq<bytes>): map<Path, bytes>
    requires |news| == FILES
  {
    (before - TemporarySet())[Placed(0) := news[0]][Placed(1) := news[1]][Placed(2) := news[2]][Placed(3) := news[3]]
  }

  /** Nothing new is there; the first `placed` names are gone and all else is as before, without temporaries. */
  function Undone(before: map<Path, bytes>, placed: nat): map<Path, bytes> {
    before - TemporarySet() - AsSet(Places(placed))
  }

  lemma InTemporaries(from: nat, to: nat)
    requires from <= to
    ensures forall p :: p in AsSet(Temporaries(from, to)) <==> p.Temporary? && from <= p.i < to
  {
    var s := Temporaries(from, to);
    assert forall i | from <= i < to :: s[i - from] == Temporary(i);
  }

  lemma InPlaces(to: nat)
    ensures forall p :: p in AsSet(Places(to)) <==> p.Placed? && p.i < to
  {
    var s := Places(to);
    assert forall i | 0 <= i < to :: s[i] == Placed(i);
  }

  lemma NoTemporaries(i: nat)
    ensures Temporaries(i, i) == [] && Places(0) == []
  {
  }

  lemma NothingStaged(before: map<Path, bytes>, news: seq<bytes>)
    requires |news| == FILES
    ensures before - AsSet(Temporaries(0, FILES)) == Staged(before, news, 0, 0)
  {
    InTemporaries(0, FILES);
  }

  /** What a path holds at a stage. */
  lemma StagedAt(before: map<Path, bytes>, news: seq<bytes>, placed: nat, written: nat, p: Path)
    requires placed <= written <= FILES == |news|
    ensures var s, ours := Staged(before, news, placed, written), p.Temporary? && p.i < FILES;
            && (p in s <==> if ours then placed <= p.i < written else p in before || (p.Placed? && p.i < placed))
            && (p in s ==> s[p] == if ours || (p.Placed? && p.i < placed) then news[p.i] else before[p])
  {
    assert p.Temporary? && p.i < FILES ==> p in TemporarySet();
    assert p.Placed? && p.i < FILES ==> p in PlacedSet();
  }

  lemma StagedMore(before: map<Path, bytes>, news: seq<bytes>, i: nat)
    requires |news| == FILES && i < FILES
    ensures Staged(before, news, 0, i)[Temporary(i) := news[i]] == Staged(before, news, 0, i + 1)
    ensures Temporaries(0, i) + [Temporary(i)] == Temporaries(0, i + 1)
  {
    hide Staged;
    forall p
      ensures p in Staged(before, news, 0, i + 1) <==> p == Temporary(i) || p in Staged(before, news, 0, i)
      ensures p in Staged(before, news, 0, i + 1)
              ==> Staged(before, news, 0, i + 1)[p]
                  == if p == Temporary(i) then news[i] else Staged(before, news, 0, i)[p]
    {
      StagedAt(before, news, 0, i, p);
      StagedAt(before, news, 0, i + 1, p);
    }
  }

  lemma PlacedMore(before: map<Path, bytes>, news: seq<bytes>, i: nat)
    requires |news| == FILES && i < FILES
    ensures var s := Staged(before, news, i, FILES);
            Temporary(i) in s && s[Placed(i) := s[Temporary(i)]] - {Temporary(i)} == Staged(before, news, i + 1, FILES)
  {
    hide Staged;
    var s, t := Staged(before, news, i, FILES), Staged(before, news, i + 1, FILES);
    StagedAt(before, news, i, FILES, Temporary(i));
    StagedAt(before, news, i + 1, FILES, Placed(i));
    forall p | p in t && p != Placed(i) ensures p in s && p != Temporary(i) && t[p] == s[p] {
      StagedAt(before, news, i, FILES, p);
      StagedAt(before, news, i + 1, FILES, p);
    }
    forall p | p in s && p != Temporary(i) ensures p in t {
      StagedAt(before, news, i, FILES, p);
      StagedAt(before, news, i + 1, FILES, p);
    }
    Moved(s, t, Temporary(i), Placed(i));
  }

  lemma Moved(s: map<Path, bytes>, t: map<Path, bytes>, from: Path, to: Path)
    requires from in s && from != to && to in t && t[to] == s[from]
    requires forall p | p in t && p != to :: p in s && p != from && t[p] == s[p]
    requires forall p | p in s && p != from :: p in t
    ensures s[to := s[from]] - {from} == t
  {
    var moved := s[to := s[from]] - {from};
    assert moved.Keys == t.Keys;
  }

  lemma ListsMove(i: nat)
    requires i < FILES
    ensures |Temporaries(i, FILES)| > 0 && Temporaries(i, FILES)[1..] == Temporaries(i + 1, FILES)
            && Places(i) + [Placed(i)] == Places(i + 1)
  {
  }

  lemma AllPlaced(before: map<Path, bytes>, news: seq<bytes>)
    requires |news| == FILES
    ensures Staged(before, news, FILES, FILES) == InPlace(before, news)
  {
  }

  lemma UndoneWrite(before: map<Path, bytes>, news: seq<bytes>, i: nat)
    requires |news| == FILES && i < FILES
    ensures (Staged(before, news, 0, i) - {Temporary(i)}) - AsSet(Temporaries(0, i)) == Undone(before, 0)
  {
    InTemporaries(0, i);
    InPlaces(0);
    hide AsSet;
  }

  lemma BothSets(a: seq<Path>, b: seq<Path>)
    ensures AsSet(a + b) == AsSet(a) + AsSet(b)
  {
  }

  lemma UndoneAt(before: map<Path, bytes>, news: seq<bytes>, i: nat, p: Path)
    requires |news| == FILES && i < FILES
    ensures var staged := Staged(before, news, i, FILES);
            var gone := (p.Temporary? && i <= p.i < FILES) || (p.Placed? && p.i < i);
            && (p in Undone(before, i) <==> p in staged && !gone)
            && (p in Undone(before, i) ==> Undone(before, i)[p] == staged[p])
  {
    InPlaces(i);
    hide AsSet, Places;
    assert p in TemporarySet() <==> p.Temporary? && p.i < FILES;
  }

  lemma UndoneRename(before: map<Path, bytes>, news: seq<bytes>, i: nat)
    requires |news| == FILES && i < FILES
    ensures Staged(before, news, i, FILES) - AsSet(Temporaries(i, FILES) + Places(i)) == Undone(before, i)
  {
    InTemporaries(i, FILES);
    InPlaces(i);
    BothSets(Temporaries(i, FILES), Places(i));
    hide AsSet, Temporaries, Places, Staged, Undone;
    forall p
      ensures p in Undone(before, i)
              <==> p in Staged(before, news, i, FILES) && p !in AsSet(Temporaries(i, FILES)) + AsSet(Places(i))
      ensures p in Undone(before, i) ==> Undone(before, i)[p] == Staged(before, news, i, FILES)[p]
    {
      UndoneAt(before, news, i, p);
    }
  }

  /** What a failure leaves under the four names is never new, and never partly new: each is as before, or gone. */
  lemma FailureIsNeverMixed(before: map<Path, bytes>, placed: nat, p: Path)
    requires placed < FILES && p in Undone(before, placed)
    ensures p in before && Undone(before, placed)[p] == before[p] && (p.Temporary? ==> p.i >= FILES)
    ensures p.Placed? ==> p.i >= placed
  {
    InPlaces(placed);
  }
}
