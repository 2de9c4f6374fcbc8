/** An open audit trail: descriptors of its files, what they hold, and that no later rotation or prune takes a line
    from under them. */
module AuditOpened {
  import opened Results
  import opened AuditTrail

  datatype OpenedArchive = OpenedArchive(number: nat, inode: Inode)

  /** An open trail: where it continues from, its archives' descriptors in order, and the current file's. */
  datatype Opened = Opened(start: nat, archives: seq<OpenedArchive>, current: Option<Inode>)

  function Insert(a: OpenedArchive, s: seq<OpenedArchive>): seq<OpenedArchive> {
    if s == [] || a.number <= s[0].number then [a] + s else [s[0]] + Insert(a, s[1..])
  }

  /** sort.Slice by number. */
  function Sorted(s: seq<OpenedArchive>): seq<OpenedArchive> {
    if s == [] then [] else Insert(s[|s| - 1], Sorted(s[..|s| - 1]))
  }

  ghost predicate InOrder(s: seq<OpenedArchive>) {
    forall i, j | 0 <= i < j < |s| :: s[i].number < s[j].number
  }

  ghost predicate Distinct(s: seq<OpenedArchive>) {
    forall i, j | 0 <= i < j < |s| :: s[i].number != s[j].number
  }

  lemma {:induction false} InsertOk(a: OpenedArchive, s: seq<OpenedArchive>)
    requires InOrder(s) && forall b | b in s :: b.number != a.number
    ensures InOrder(Insert(a, s)) && |Insert(a, s)| == |s| + 1
    ensures forall b :: b in Insert(a, s) <==> b == a || b in s
  {
    if s != [] && s[0].number < a.number {
      InsertOk(a, s[1..]);
      assert s == [s[0]] + s[1..];
      var r := Insert(a, s[1..]);
      forall i | 0 <= i < |r| ensures s[0].number < r[i].number { assert r[i] in r; }
    }
  }

  lemma {:induction false} SortedOk(s: seq<OpenedArchive>)
    requires Distinct(s)
    ensures InOrder(Sorted(s)) && |Sorted(s)| == |s| && forall b :: b in Sorted(s) <==> b in s
  {
    if s != [] {
      var p, a := s[..|s| - 1], s[|s| - 1];
      SortedOk(p);
      assert s == p + [a];
      InsertOk(a, Sorted(p));
    }
  }

  function Inodes(o: Opened): multiset<Inode> {
    ArchiveInodes(o.archives) + if o.current.Some? then multiset{o.current.value} else multiset{}
  }

  function ArchiveInodes(s: seq<OpenedArchive>): multiset<Inode> {
    if s == [] then multiset{} else multiset{s[0].inode} + ArchiveInodes(s[1..])
  }

  lemma {:induction false} InodesSnoc(s: seq<OpenedArchive>, a: OpenedArchive)
    ensures ArchiveInodes(s + [a]) == ArchiveInodes(s) + multiset{a.inode}
  {
    if s == [] {
      assert [] + [a] == [a] && [a][1..] == [];
    } else {
      InodesSnoc(s[1..], a);
      assert (s + [a])[1..] == s[1..] + [a];
    }
  }

  lemma {:induction false} InsertInodes(a: OpenedArchive, s: seq<OpenedArchive>)
    ensures ArchiveInodes(Insert(a, s)) == ArchiveInodes(s) + multiset{a.inode}
  {
    if s == [] || a.number <= s[0].number {
      assert ([a] + s)[1..] == s;
    } else {
      InsertInodes(a, s[1..]);
      assert ([s[0]] + Insert(a, s[1..]))[1..] == Insert(a, s[1..]);
    }
  }

  lemma {:induction false} SortedInodes(s: seq<OpenedArchive>)
    ensures ArchiveInodes(Sorted(s)) == ArchiveInodes(s)
  {
    if s != [] {
      var p, a := s[..|s| - 1], s[|s| - 1];
      SortedInodes(p);
      InsertInodes(a, Sorted(p));
      InodesSnoc(p, a);
      assert s == p + [a];
    }
  }

  /** What reading the descriptors in order gives. */
  function Lines(files: map<Inode, seq<Line>>, s: seq<OpenedArchive>): seq<Line>
    requires forall a | a in s :: a.inode in files
  {
    if s == [] then [] else Lines(files, s[..|s| - 1]) + files[s[|s| - 1].inode]
  }

  predicate Readable(files: map<Inode, seq<Line>>, o: Opened) {
    (forall a | a in o.archives :: a.inode in files) && (o.current.Some? ==> o.current.value in files)
  }

  function Contents(files: map<Inode, seq<Line>>, o: Opened): seq<Line>
    requires Readable(files, o)
  {
    Lines(files, o.archives) + if o.current.Some? then files[o.current.value] else []
  }

  /** The archive is one the opener keeps: not covered by the marker, and not the current file under its archive
      name. */
  predicate Kept(l: Listing, n: nat) {
    n in l.archives && l.marker < n && l.current != Some(l.archives[n])
  }

  /** These are the kept archives of the listing, each once. */
  ghost predicate Matches(l: Listing, s: seq<OpenedArchive>) {
    && (forall a | a in s :: Kept(l, a.number) && a.inode == l.archives[a.number])
    && (forall n | Kept(l, n) :: OpenedArchive(n, l.archives[n]) in s)
  }

  ghost predicate Opens(l: Listing, o: Opened) {
    o.start == l.marker && o.current == l.current && InOrder(o.archives) && Matches(l, o.archives)
  }

  // ---- what the descriptors hold ----

  lemma KeptAreCuts(d: Dir, n: nat)
    requires Valid(d)
    ensures Kept(Seen(d), n) <==> n in d.cuts && d.marker < n
  {
    if n in d.cuts && d.marker < n {
      var k :| 0 <= k < |d.cuts| && d.cuts[k] == n;
      assert ArchiveOk(d, k);
    }
  }

  /** The kept archives in order are the cuts after the marker. */
  lemma NumbersAreCuts(d: Dir, s: seq<OpenedArchive>, j: nat)
    requires Valid(d) && InOrder(s) && Matches(Seen(d), s) && j < |d.cuts| && d.cuts[j] == d.marker
    ensures |s| == |d.cuts| - 1 - j && forall i | 0 <= i < |s| :: s[i].number == d.cuts[j + 1 + i]
  {
    hide ArchivesOk, CurrentOk, NamesOk;
    var rest := d.cuts[j + 1..];
    var numbers := seq(|s|, i requires 0 <= i < |s| => s[i].number);
    forall n ensures n in numbers <==> n in rest {
      KeptAreCuts(d, n);
      if n in numbers {
        var i :| 0 <= i < |s| && s[i].number == n;
        assert s[i] in s;
        var k :| 0 <= k < |d.cuts| && d.cuts[k] == n;
        assert k > j && rest[k - j - 1] == n;
      }
      if n in rest {
        var k :| 0 <= k < |rest| && rest[k] == n;
        assert d.cuts[j] < d.cuts[j + 1 + k] == n;
        var a := OpenedArchive(n, d.archives[n]);
        assert a in s;
        var i :| 0 <= i < |s| && s[i] == a;
        assert numbers[i] == n;
      }
    }
    SameElements(numbers, rest);
  }

  /** Two strictly increasing sequences of the same numbers are one. */
  lemma {:induction false} SameElements(s: seq<nat>, r: seq<nat>)
    requires StrictlyIncreasing(s) && StrictlyIncreasing(r) && forall n :: n in s <==> n in r
    ensures s == r
  {
    assert (s != [] ==> s[0] in s) && (r != [] ==> r[0] in r);
    if s != [] && r != [] {
      assert s[0] in r && r[0] in s;
      assert s[0] == r[0];
      forall n ensures n in s[1..] <==> n in r[1..] {
        assert n in s[1..] <==> n in s && n != s[0];
        assert n in r[1..] <==> n in r && n != r[0];
      }
      SameElements(s[1..], r[1..]);
      assert s == [s[0]] + s[1..] && r == [r[0]] + r[1..];
    }
  }

  lemma {:induction false} LinesUpTo(d: Dir, s: seq<OpenedArchive>, j: nat, k: nat)
    requires Valid(d) && Matches(Seen(d), s) && j < |d.cuts| && d.cuts[j] == d.marker && k <= |s|
    requires |s| == |d.cuts| - 1 - j && forall i | 0 <= i < |s| :: s[i].number == d.cuts[j + 1 + i]
    ensures (forall a | a in s[..k] :: a.inode in d.files) && d.marker <= d.cuts[j + k] <= |d.trail|
    ensures Lines(d.files, s[..k]) == d.trail[d.marker..d.cuts[j + k]]
  {
    hide Valid, Matches;
    CutsRise(d, j, j + k);
    if k > 0 {
      LinesUpTo(d, s, j, k - 1);
      ArchiveLines(d, s, j, k);
      LinesSnoc(d.files, s, k);
      var m, n := d.cuts[j + k - 1], d.cuts[j + k];
      assert d.trail[d.marker..n] == d.trail[d.marker..m] + d.trail[m..n];
    }
  }

  lemma LinesSnoc(files: map<Inode, seq<Line>>, s: seq<OpenedArchive>, k: nat)
    requires 0 < k <= |s| && (forall a | a in s[..k - 1] :: a.inode in files) && s[k - 1].inode in files
    ensures (forall a | a in s[..k] :: a.inode in files)
            && Lines(files, s[..k]) == Lines(files, s[..k - 1]) + files[s[k - 1].inode]
  {
    assert s[..k][..k - 1] == s[..k - 1];
    assert forall a | a in s[..k] :: a in s[..k - 1] || a == s[k - 1];
  }

  lemma CutsRise(d: Dir, i: nat, k: nat)
    requires Valid(d) && i <= k < |d.cuts|
    ensures d.cuts[i] <= d.cuts[k] <= |d.trail|
  {
    hide CurrentOk, NamesOk, KeptOk, ArchivesOk;
    LastBounds(d.cuts);
    assert d.cuts[k] in d.cuts;
  }

  lemma ArchiveLines(d: Dir, s: seq<OpenedArchive>, j: nat, k: nat)
    requires Valid(d) && Matches(Seen(d), s) && j < |d.cuts| && 0 < k <= |s|
    requires |s| == |d.cuts| - 1 - j && s[k - 1].number == d.cuts[j + k]
    ensures s[k - 1].inode in d.files && d.cuts[j + k - 1] <= d.cuts[j + k] <= |d.trail|
    ensures d.files[s[k - 1].inode] == d.trail[d.cuts[j + k - 1]..d.cuts[j + k]]
  {
    hide CurrentOk, NamesOk, KeptOk, StrictlyIncreasing;
    assert s[k - 1] in s && Kept(Seen(d), s[k - 1].number);
    assert ArchiveOk(d, j + k);
  }

  lemma ArchivesHold(d: Dir, o: Opened)
    requires Valid(d) && Opens(Seen(d), o)
    ensures d.marker <= Last(d.cuts) <= |d.trail| && forall a | a in o.archives :: a.inode in d.files
    ensures Lines(d.files, o.archives) == d.trail[d.marker..Last(d.cuts)]
  {
    hide ArchivesOk, NamesOk, KeptOk, CurrentOk, Matches, StrictlyIncreasing, Lines;
    var j :| 0 <= j < |d.cuts| && d.cuts[j] == d.marker;
    NumbersAreCuts(d, o.archives, j);
    var n := |o.archives|;
    LinesUpTo(d, o.archives, j, n);
    assert o.archives[..n] == o.archives && d.cuts[j + n] == Last(d.cuts);
  }

  /** THE WHOLE TRAIL. Descriptors that match the directory hold, in order, exactly the lines after the marker: none
      missing, none repeated, none out of order. */
  lemma OpensWhole(d: Dir, o: Opened)
    requires Valid(d) && Opens(Seen(d), o)
    ensures d.marker <= |d.trail| && Readable(d.files, o) && Contents(d.files, o) == d.trail[d.marker..]
  {
    hide ArchivesOk, NamesOk, KeptOk, CutsOk, Matches, InOrder, Lines;
    ArchivesHold(d, o);
    if d.current.Some? {
      assert d.trail[d.marker..] == d.trail[d.marker..Last(d.cuts)] + d.trail[Last(d.cuts)..];
    }
  }

  lemma HoldKeepsValid(d: Dir, e: Dir)
    requires Valid(d) && e == d.(held := e.held)
    ensures Valid(e)
  {
    hide ArchiveOk, StrictlyIncreasing;
    SameFilesSameArchives(d, e);
  }

  // ---- descriptors outlive names ----

  /** The descriptors hold the trail from where they start, up to some line; up to the last one while the file in
      place is still the one that was opened. */
  ghost predicate Safe(d: Dir, o: Opened) {
    && Readable(d.files, o) && o.start <= |d.trail|
    && (forall a | a in o.archives :: a.inode in d.held && d.current != Some(a.inode))
    && (o.current.Some? ==> o.current.value in d.held)
    && Contents(d.files, o) <= d.trail[o.start..]
    && (d.current == o.current ==> Contents(d.files, o) == d.trail[o.start..])
  }

  lemma {:induction false} SameLines(f: map<Inode, seq<Line>>, g: map<Inode, seq<Line>>, s: seq<OpenedArchive>)
    requires forall a | a in s :: a.inode in f && a.inode in g && f[a.inode] == g[a.inode]
    ensures Lines(f, s) == Lines(g, s)
  {
    if s != [] { SameLines(f, g, s[..|s| - 1]); }
  }

  lemma DoKeepsSafe(d: Dir, s: Step, o: Opened)
    requires Safe(d, o) && (d.current.Some? ==> d.current.value in d.files)
    ensures Safe(Do(d, s), o) && Contents(d.files, o) <= Contents(Do(d, s).files, o)
  {
    var e := Do(d, s);
    hide Lines;
    if e != d && (s.Append? || s.Replace?) {
      assert e.trail[o.start..] == d.trail[o.start..] + [s.line];
      SameLines(d.files, e.files, o.archives);
    }
  }

  /** A rotation or a prune after the trail was opened takes no line from under it: whatever the writer does next, the
      open descriptors still give every line there was, in order, and nothing that is not in the trail. */
  lemma {:induction false} NothingIsLost(d: Dir, steps: seq<Step>, o: Opened)
    requires Valid(d) && Safe(d, o)
    ensures var e := Run(d, steps); Safe(e, o) && Contents(d.files, o) <= Contents(e.files, o) <= e.trail[o.start..]
  {
    hide Do, Contents;
    if steps != [] {
      var m := Run(d, steps[..|steps| - 1]);
      NothingIsLost(d, steps[..|steps| - 1], o);
      RunKeepsValid(d, steps[..|steps| - 1]);
      DoKeepsSafe(m, steps[|steps| - 1], o);
    }
  }

  /** What openSegments returns is safe from then on. */
  lemma OpenedIsSafe(d: Dir, o: Opened)
    requires Valid(d) && Opens(Seen(d), o) && Inodes(o) <= d.held
    ensures Safe(d, o)
  {
    hide Valid;
    OpensWhole(d, o);
    forall a | a in o.archives ensures a.inode in d.held { InodeOf(o.archives, a); }
  }

  lemma {:induction false} InodeOf(s: seq<OpenedArchive>, a: OpenedArchive)
    requires a in s
    ensures a.inode in ArchiveInodes(s)
  {
    if s[0] != a { InodeOf(s[1..], a); }
  }
}
