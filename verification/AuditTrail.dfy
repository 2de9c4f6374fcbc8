/** The audit trail on disk as its writer leaves it: a current file, archives named by the number of their last line,
    and the prune marker. Rotation links the full file to its archive name and then replaces it; a prune writes the
    marker and then unlinks. A run of the writer may stop between any two of these, and go on later. */
module AuditTrail {
  import opened Results

  type Inode = nat
  type Line = string

  /** The directory, with the trail's other names in it (`staged`: the file and the marker being prepared, and the
      marker's own file), what every inode holds, and the inodes held open by a reader; and, for the statements, every
      line ever written (`trail`: line n is trail[n - 1]), where files were cut (`cuts`), how often the directory
      moved, and how often a staged name did. */
  datatype Dir = Dir(current: Option<Inode>, archives: map<nat, Inode>, marker: nat, staged: map<string, Inode>,
                     files: map<Inode, seq<Line>>, held: multiset<Inode>, trail: seq<Line>, cuts: seq<nat>, moves: nat,
                     stirs: nat)

  /** What makes up the trail in the directory at one moment: names, inodes and the marker, not sizes. */
  datatype Listing = Listing(current: Option<Inode>, archives: map<nat, Inode>, marker: nat)

  function Seen(d: Dir): Listing { Listing(d.current, d.archives, d.marker) }

  /** What a reader compares: that, and the staged names. */
  datatype Snapshot = Snapshot(listing: Listing, staged: map<string, Inode>)

  function Observed(d: Dir): Snapshot { Snapshot(Seen(d), d.staged) }

  function Empty(): Dir { Dir(None, map[], 0, map[], map[], multiset{}, [], [0], 0, 0) }

  datatype Step =
    | Append(line: Line, inode: Inode)
    | Link
    | Replace(line: Line, inode: Inode)
    | Mark(seq_: nat)
    | Unlink(seq_: nat)
    | Stage(names: map<string, Inode>)

  function Last(cuts: seq<nat>): nat { if cuts == [] then 0 else cuts[|cuts| - 1] }

  /** An inode number the kernel may give a new file: no name and no open descriptor refers to it. */
  predicate Free(d: Dir, i: Inode) {
    d.current != Some(i) && i !in d.archives.Values && i !in d.held
  }

  /** The full file already has its archive name, and the new file is not in place yet. */
  predicate Pending(d: Dir) {
    d.current.Some? && |d.trail| in d.archives && d.archives[|d.trail|] == d.current.value
  }

  /** A step that does not apply (a lock not held, a name that exists) leaves everything as it is. */
  function Do(d: Dir, s: Step): Dir {
    match s
    case Append(line, inode) =>
      if d.current.None? && Free(d, inode) then
        d.(current := Some(inode), files := d.files[inode := [line]], trail := d.trail + [line], moves := d.moves + 1)
      else if d.current.Some? && !Pending(d) && d.current.value in d.files then
        d.(files := d.files[d.current.value := d.files[d.current.value] + [line]], trail := d.trail + [line])
      else d
    case Link =>
      if d.current.Some? && !Pending(d) && Last(d.cuts) < |d.trail|
      then d.(archives := d.archives[|d.trail| := d.current.value], moves := d.moves + 1) else d
    case Replace(line, inode) =>
      if Pending(d) && Free(d, inode) then
        d.(current := Some(inode), files := d.files[inode := [line]], trail := d.trail + [line],
           cuts := d.cuts + [|d.trail|], moves := d.moves + 1)
      else d
    case Mark(n) =>
      if n in d.archives && n in d.cuts && d.marker < n then d.(marker := n, moves := d.moves + 1) else d
    case Unlink(n) =>
      if n in d.archives && n <= d.marker then d.(archives := d.archives - {n}, moves := d.moves + 1) else d
    case Stage(names) => d.(staged := names, stirs := d.stirs + 1)
  }

  function Run(d: Dir, steps: seq<Step>): Dir {
    if steps == [] then d else Do(Run(d, steps[..|steps| - 1]), steps[|steps| - 1])
  }

  ghost predicate StrictlyIncreasing(s: seq<nat>) {
    forall i, j | 0 <= i < j < |s| :: s[i] < s[j]
  }

  /** Where an archive's lines are in the trail. */
  ghost predicate ArchiveOk(d: Dir, k: nat) {
    && 0 < k < |d.cuts| && d.cuts[k - 1] <= d.cuts[k] <= |d.trail|
    && d.cuts[k] in d.archives && d.archives[d.cuts[k]] in d.files
    && d.files[d.archives[d.cuts[k]]] == d.trail[d.cuts[k - 1]..d.cuts[k]]
    && d.current != Some(d.archives[d.cuts[k]])
  }

  ghost predicate CutsOk(cuts: seq<nat>, lines: nat, marker: nat) {
    cuts != [] && cuts[0] == 0 && StrictlyIncreasing(cuts) && Last(cuts) <= lines && marker in cuts
  }

  ghost predicate CurrentOk(d: Dir) {
    && (d.current.None? ==> d.trail == [] && d.archives == map[])
    && (d.current.Some? ==> Last(d.cuts) < |d.trail| && d.current.value in d.files
                            && d.files[d.current.value] == d.trail[Last(d.cuts)..])
  }

  ghost predicate NamesOk(d: Dir) {
    forall n | n in d.archives ::
      (n in d.cuts && n != 0) || (n == |d.trail| && d.current == Some(d.archives[n]))
  }

  ghost predicate ArchivesOk(d: Dir) {
    forall k | 0 < k < |d.cuts| && d.cuts[k] in d.archives :: ArchiveOk(d, k)
  }

  ghost predicate KeptOk(cuts: seq<nat>, archives: map<nat, Inode>, marker: nat) {
    forall n | n in cuts && marker < n :: n in archives
  }

  /** The files on disk, in order, are the trail from the marker on. */
  ghost predicate Valid(d: Dir) {
    CutsOk(d.cuts, |d.trail|, d.marker) && CurrentOk(d) && NamesOk(d) && ArchivesOk(d)
        && KeptOk(d.cuts, d.archives, d.marker)
  }

  lemma LastBounds(cuts: seq<nat>)
    requires cuts != [] && StrictlyIncreasing(cuts)
    ensures forall n | n in cuts :: n <= Last(cuts)
  {
  }

  lemma PrefixKeepsArchive(d: Dir, e: Dir, k: nat)
    requires ArchiveOk(d, k)
    requires |d.cuts| <= |e.cuts| && e.cuts[k - 1] == d.cuts[k - 1] && e.cuts[k] == d.cuts[k] && d.trail <= e.trail
    requires d.cuts[k] in e.archives && e.archives[d.cuts[k]] == d.archives[d.cuts[k]]
    requires e.archives[d.cuts[k]] in e.files && e.files[e.archives[d.cuts[k]]] == d.files[d.archives[d.cuts[k]]]
    requires e.current != Some(d.archives[d.cuts[k]])
    ensures ArchiveOk(e, k)
  {
    assert e.trail[d.cuts[k - 1]..d.cuts[k]] == d.trail[d.cuts[k - 1]..d.cuts[k]];
  }

  lemma CreateKeeps(d: Dir, line: Line, inode: Inode)
    requires Valid(d) && d.current.None?
    ensures Valid(Do(d, Append(line, inode)))
  {
    hide ArchiveOk, StrictlyIncreasing;
    var e := Do(d, Append(line, inode));
    if e != d {
      assert e.trail[0..] == [line];
      ArchivesStay(d, e);
    }
  }

  lemma NamesStay(d: Dir, e: Dir)
    requires NamesOk(d) && !Pending(d) && d.current.Some? && e.archives == d.archives && e.cuts == d.cuts
    ensures NamesOk(e)
  {
  }

  lemma AppendKeeps(d: Dir, line: Line, inode: Inode)
    requires Valid(d)
    ensures Valid(Do(d, Append(line, inode)))
  {
    var e := Do(d, Append(line, inode));
    if d.current.None? {
      CreateKeeps(d, line, inode);
    } else if e != d {
      hide ArchiveOk, ArchivesOk, NamesOk, KeptOk, StrictlyIncreasing;
      assert e.trail[Last(d.cuts)..] == d.trail[Last(d.cuts)..] + [line];
      NamesStay(d, e);
      ArchivesStay(d, e);
    }
  }

  lemma ArchivesStay(d: Dir, e: Dir)
    requires ArchivesOk(d) && e.cuts == d.cuts && e.archives == d.archives && d.trail <= e.trail
    requires forall i | i in d.files && i in d.archives.Values && d.current != Some(i) ::
      i in e.files && e.files[i] == d.files[i] && e.current != Some(i)
    ensures ArchivesOk(e)
  {
    forall k | 0 < k < |e.cuts| && e.cuts[k] in e.archives ensures ArchiveOk(e, k) {
      assert ArchiveOk(d, k);
      assert d.archives[d.cuts[k]] in d.archives.Values;
      PrefixKeepsArchive(d, e, k);
    }
  }

  lemma LinkKeeps(d: Dir)
    requires Valid(d)
    ensures Valid(Do(d, Link))
  {
    var e := Do(d, Link);
    if e != d {
      LastBounds(d.cuts);
      forall k | 0 < k < |e.cuts| && e.cuts[k] in e.archives ensures ArchiveOk(e, k) {
        assert d.cuts[k] in d.cuts && e.cuts[k] != |d.trail|;
        assert ArchiveOk(d, k);
        PrefixKeepsArchive(d, e, k);
      }
    }
  }

  lemma CutsGrow(cuts: seq<nat>, lines: nat, marker: nat)
    requires CutsOk(cuts, lines, marker) && Last(cuts) < lines
    ensures CutsOk(cuts + [lines], lines + 1, marker)
  {
    LastBounds(cuts);
    assert forall i | 0 <= i < |cuts| :: cuts[i] in cuts;
  }

  lemma KeptGrows(cuts: seq<nat>, archives: map<nat, Inode>, marker: nat, lines: nat)
    requires KeptOk(cuts, archives, marker) && lines in archives
    ensures KeptOk(cuts + [lines], archives, marker)
  {
  }

  lemma NamesCut(d: Dir, e: Dir)
    requires NamesOk(d) && e.archives == d.archives && e.cuts == d.cuts + [|d.trail|] && |d.trail| > 0
    ensures NamesOk(e)
  {
  }

  lemma ReplaceKeeps(d: Dir, line: Line, inode: Inode)
    requires Valid(d)
    ensures Valid(Do(d, Replace(line, inode)))
  {
    hide StrictlyIncreasing, ArchivesOk, KeptOk, NamesOk, ArchiveOk;
    var e := Do(d, Replace(line, inode));
    if e != d {
      CutsGrow(d.cuts, |d.trail|, d.marker);
      KeptGrows(d.cuts, d.archives, d.marker, |d.trail|);
      NamesCut(d, e);
      assert e.trail[|d.trail|..] == [line];
      ReplaceKeepsArchives(d, e, inode);
    }
  }

  lemma ReplaceKeepsArchives(d: Dir, e: Dir, inode: Inode)
    requires ArchivesOk(d) && CurrentOk(d) && d.cuts != [] && Pending(d) && Free(d, inode)
    requires e.cuts == d.cuts + [|d.trail|] && e.archives == d.archives && d.trail <= e.trail
             && e.current == Some(inode)
    requires forall i | i in d.files && i != inode :: i in e.files && e.files[i] == d.files[i]
    ensures ArchivesOk(e)
  {
    var n := |d.cuts|;
    forall k | 0 < k < |e.cuts| && e.cuts[k] in e.archives ensures ArchiveOk(e, k) {
      assert e.archives[e.cuts[k]] in d.archives.Values;
      if k < n {
        assert e.cuts[k] == d.cuts[k] && e.cuts[k - 1] == d.cuts[k - 1];
        assert ArchiveOk(d, k);
        PrefixKeepsArchive(d, e, k);
      } else {
        assert e.cuts[n - 1] == Last(d.cuts);
        assert e.trail[Last(d.cuts)..|d.trail|] == d.trail[Last(d.cuts)..];
      }
    }
  }

  lemma MarkKeeps(d: Dir, n: nat)
    requires Valid(d)
    ensures Valid(Do(d, Mark(n)))
  {
    hide StrictlyIncreasing, ArchiveOk;
    var e := Do(d, Mark(n));
    if e != d {
      SameFilesSameArchives(d, e);
    }
  }

  lemma UnlinkKeeps(d: Dir, n: nat)
    requires Valid(d)
    ensures Valid(Do(d, Unlink(n)))
  {
    hide StrictlyIncreasing, ArchiveOk;
    var e := Do(d, Unlink(n));
    if e != d {
      SameFilesSameArchives(d, e);
    }
  }

  lemma SameFilesSameArchives(d: Dir, e: Dir)
    requires ArchivesOk(d) && e.cuts == d.cuts && e.trail == d.trail && e.files == d.files && e.current == d.current
    requires e.archives.Keys <= d.archives.Keys && forall n | n in e.archives :: e.archives[n] == d.archives[n]
    ensures ArchivesOk(e)
  {
    forall k | 0 < k < |e.cuts| && e.cuts[k] in e.archives ensures ArchiveOk(e, k) {
      assert ArchiveOk(d, k);
    }
  }

  lemma DoKeepsValid(d: Dir, s: Step)
    requires Valid(d)
    ensures Valid(Do(d, s))
  {
    hide Valid, Do;
    match s
    case Append(line, inode) => AppendKeeps(d, line, inode);
    case Link => LinkKeeps(d);
    case Replace(line, inode) => ReplaceKeeps(d, line, inode);
    case Mark(n) => MarkKeeps(d, n);
    case Unlink(n) => UnlinkKeeps(d, n);
    case Stage(names) => StageKeeps(d, names);
  }

  lemma StageKeeps(d: Dir, names: map<string, Inode>)
    requires Valid(d)
    ensures Valid(Do(d, Stage(names)))
  {
    hide StrictlyIncreasing, ArchiveOk;
    SameFilesSameArchives(d, Do(d, Stage(names)));
  }

  /** A trail begins as an empty directory. */
  lemma EmptyIsValid()
    ensures Valid(Empty())
  {
  }

  /** So from there on, whatever the writer does and wherever it stops, the files on disk are the trail from the
      marker on. */
  lemma EveryRunIsValid(steps: seq<Step>)
    ensures Valid(Run(Empty(), steps))
  {
    EmptyIsValid();
    RunKeepsValid(Empty(), steps);
  }

  lemma {:induction false} RunKeepsValid(d: Dir, steps: seq<Step>)
    requires Valid(d)
    ensures Valid(Run(d, steps)) && d.trail <= Run(d, steps).trail && d.moves <= Run(d, steps).moves
            && Run(d, steps).held == d.held
  {
    hide Valid, Do;
    if steps != [] {
      RunKeepsValid(d, steps[..|steps| - 1]);
      DoKeepsValid(Run(d, steps[..|steps| - 1]), steps[|steps| - 1]);
      DoGrows(Run(d, steps[..|steps| - 1]), steps[|steps| - 1]);
    }
  }

  lemma DoGrows(d: Dir, s: Step)
    ensures d.trail <= Do(d, s).trail && d.moves <= Do(d, s).moves && Do(d, s).held == d.held
  {
  }

  // ---- what the writer does undisturbed ----

  /** A line goes to the end of the trail; the first of all to a file of its own. */
  lemma AppendAdds(d: Dir, line: Line, inode: Inode)
    requires Valid(d) && !Pending(d) && (d.current.None? ==> Free(d, inode))
    ensures var e := Do(d, Append(line, inode));
            && e.trail == d.trail + [line] && e.archives == d.archives && e.marker == d.marker
            && e.current == (if d.current.Some? then d.current else Some(inode))
            && e.current.value in e.files && e.files[e.current.value] == e.trail[Last(d.cuts)..]
  {
    AppendKeeps(d, line, inode);
  }

  /** A rotation: the full file becomes the archive of its last line's number, and a new one with the line is in its
      place. */
  lemma RotationArchives(d: Dir, line: Line, inode: Inode)
    requires Valid(d) && d.current.Some? && !Pending(d) && Free(d, inode)
    ensures var e := Run(d, [Link, Replace(line, inode)]);
            && e.archives == d.archives[|d.trail| := d.current.value] && e.marker == d.marker
            && e.current == Some(inode) && e.files == d.files[inode := [line]] && e.trail == d.trail + [line]
            && e.cuts == d.cuts + [|d.trail|]
  {
    TwoSteps(d, Link, Replace(line, inode));
    var m := Do(d, Link);
    assert m.archives == d.archives[|d.trail| := d.current.value];
    assert m.archives.Values <= d.archives.Values + {d.current.value};
    assert Pending(m) && Free(m, inode);
  }

  /** A prune: the marker moves up to the archive's number, and its name is gone. */
  lemma PruneDrops(d: Dir, n: nat)
    requires n in d.archives && n in d.cuts && d.marker < n
    ensures var e := Run(d, [Mark(n), Unlink(n)]);
            && e.marker == n && e.archives == d.archives - {n} && e.current == d.current && e.files == d.files
            && e.trail == d.trail
  {
    TwoSteps(d, Mark(n), Unlink(n));
  }

  lemma TwoSteps(d: Dir, a: Step, b: Step)
    ensures Run(d, [a, b]) == Do(Do(d, a), b)
  {
    hide Do;
    assert [a, b][..1] == [a];
    assert Run(d, [a]) == Do(d, a);
  }

  // ---- the observed directory never repeats ----

  /** The highest number an archive or the marker has had. */
  ghost function Top(l: Listing): nat {
    if l.archives == map[] then l.marker else Largest(l.archives.Keys + {l.marker})
  }

  ghost function Largest(s: set<nat>): (m: nat)
    requires s != {}
    ensures m in s && forall n | n in s :: n <= m
  {
    var x :| x in s;
    if s == {x} then x else
    assert s == {x} + (s - {x});
    var y := Largest(s - {x});
    assert forall n | n in s :: n == x || n in s - {x};
    if x < y then y else x
  }

  /** The file in place is the one the highest archive name is linked to. */
  ghost predicate Linked(l: Listing) {
    Top(l) in l.archives && l.current == Some(l.archives[Top(l)])
  }

  /** An order on what a reader sees: every step that moves the directory goes up in it. */
  ghost predicate Precedes(l: Listing, m: Listing) {
    if l.current.Some? != m.current.Some? then m.current.Some?
    else if Top(l) != Top(m) then Top(l) < Top(m)
    else if Linked(l) != Linked(m) then Linked(l)
    else if l.marker != m.marker then l.marker < m.marker
    else |m.archives| < |l.archives|
  }

  lemma TopIs(l: Listing, n: nat)
    requires n in l.archives || n == l.marker
    requires l.marker <= n && forall k | k in l.archives :: k <= n
    ensures Top(l) == n
  {
    var all := l.archives.Keys + {l.marker};
    assert n in all;
  }

  /** In a valid directory the highest number is the current file's archive name if it has one, else the last cut if
      it is still there, else the marker. */
  lemma TopOfValid(d: Dir)
    requires Valid(d)
    ensures Top(Seen(d)) == if Pending(d) then |d.trail| else Last(d.cuts)
    ensures Linked(Seen(d)) <==> Pending(d)
  {
    hide ArchiveOk;
    LastBounds(d.cuts);
    var top := if Pending(d) then |d.trail| else Last(d.cuts);
    assert forall k | k in d.archives :: k <= top;
    if !Pending(d) {
      assert Last(d.cuts) in d.cuts;
      if d.marker < Last(d.cuts) { assert Last(d.cuts) in d.archives; }
      if Last(d.cuts) in d.archives { LastArchiveIsNotCurrent(d); }
    }
    TopIs(Seen(d), top);
  }

  lemma LastArchiveIsNotCurrent(d: Dir)
    requires Valid(d) && Last(d.cuts) in d.archives
    ensures d.current != Some(d.archives[Last(d.cuts)])
  {
    if |d.cuts| > 1 { assert ArchiveOk(d, |d.cuts| - 1); }
  }

  /** From d to e the directory moved up, or did not move at all. */
  ghost predicate Advanced(d: Dir, e: Dir) {
    || (e.moves == d.moves && Seen(e) == Seen(d))
    || (d.moves < e.moves && Precedes(Seen(d), Seen(e)))
  }

  /** One step of the writer either moves the directory strictly up, or is an append to the file in place. */
  lemma DoMovesUp(d: Dir, s: Step)
    requires Valid(d)
    ensures Advanced(d, Do(d, s))
  {
    hide ArchivesOk, Top, Linked, ArchiveOk;
    var e := Do(d, s);
    DoKeepsValid(d, s);
    TopOfValid(d);
    TopOfValid(e);
    if s.Unlink? && e != d {
      LastBounds(d.cuts);
      assert Pending(e) == Pending(d);
      assert e.archives.Keys == d.archives.Keys - {s.seq_};
      assert |d.archives| == |d.archives.Keys| && |e.archives| == |e.archives.Keys|;
    }
  }

  lemma AdvancedTransitive(d: Dir, e: Dir, f: Dir)
    requires Advanced(d, e) && Advanced(e, f)
    ensures Advanced(d, f)
  {
    hide Top, Linked;
  }

  /** A directory that moved is never seen as it was. */
  lemma SameListingNoMove(d: Dir, e: Dir)
    requires Advanced(d, e)
    ensures Seen(e) == Seen(d) <==> e.moves == d.moves
  {
  }

  /** NO REPETITION. Whatever the writer runs, the directory either moved up in the order above or not at all; so a
      reader that sees the same directory before and after knows that no step in between rotated or pruned
      anything. */
  lemma {:induction false} RunMovesUp(d: Dir, steps: seq<Step>)
    requires Valid(d)
    ensures Advanced(d, Run(d, steps))
    ensures Seen(Run(d, steps)) == Seen(d) <==> Run(d, steps).moves == d.moves
  {
    hide Advanced, Do;
    if steps != [] {
      var m := Run(d, steps[..|steps| - 1]);
      RunMovesUp(d, steps[..|steps| - 1]);
      RunKeepsValid(d, steps[..|steps| - 1]);
      DoMovesUp(m, steps[|steps| - 1]);
      AdvancedTransitive(d, m, Run(d, steps));
    } else {
      NotMoved(d, d);
    }
    SameListingNoMove(d, Run(d, steps));
  }

  /** The same for all a reader compares: equal snapshots mean that nothing rotated or was pruned in between, and
      different ones that something moved, if only a staged name. */
  lemma SameSnapshot(d: Dir, e: Dir)
    requires Advanced(d, e) && (e.stirs == d.stirs ==> e.staged == d.staged)
    ensures Observed(e) == Observed(d) ==> e.moves == d.moves
    ensures Observed(e) != Observed(d) ==> e.moves != d.moves || e.stirs != d.stirs
  {
    SameListingNoMove(d, e);
  }

  /** Staged names change only by steps that count. */
  lemma {:induction false} RunStirs(d: Dir, steps: seq<Step>)
    ensures d.stirs <= Run(d, steps).stirs && (Run(d, steps).stirs == d.stirs ==> Run(d, steps).staged == d.staged)
  {
    if steps != [] { RunStirs(d, steps[..|steps| - 1]); }
  }

  lemma NotMoved(d: Dir, e: Dir)
    requires e.moves == d.moves && Seen(e) == Seen(d)
    ensures Advanced(d, e)
  {
  }
}
