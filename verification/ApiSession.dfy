/** Snapshots of an API session: each is counted for the clients that hold it, and holds one reference on the project
  * session behind it.
  */
module ApiSessions {
  import opened Arithmetic
  import opened Hexadecimals
  import opened Options

  // ---- handles ----

  /** A snapshot id is a 64-bit number; its handle shows all of it. */
  function HandleOf(id: nat): string {
    "n" + Hex(id, 16)
  }

  lemma HandlesDiffer(m: nat, n: nat)
    requires m < TWO_64 && n < TWO_64 && HandleOf(m) == HandleOf(n)
    ensures m == n
  {
    Pow16At16();
    assert HandleOf(m)[1..] == Hex(m, 16) && HandleOf(n)[1..] == Hex(n, 16);
    HexInjective(m, n, 16);
  }

  /** A handle is an `n` and the id in sixteen hexadecimal digits. */
  lemma HandleReads(id: nat)
    requires id < TWO_64
    ensures var h := HandleOf(id); |h| == 17 && h[0] == 'n' && ValueOf(h[1..]) == id
  {
    Pow16At16();
    assert HandleOf(id)[1..] == Hex(id, 16);
    HexValue(id, 16);
  }

  // ---- snapshots and what changes between them ----

  type Path = string

  /** The source files of a program and the version of each. */
  type Files = map<Path, nat>

  /** A project snapshot: its id and, in order, its projects with the id and the files of the program of each. */
  datatype Snapshot = Snapshot(id: nat, order: seq<Path>, programs: map<Path, nat>, files: map<Path, Files>)

  predicate SnapshotOk(s: Snapshot) {
    && s.id < TWO_64
    && (forall p | p in s.order :: p in s.programs)
    && (forall p | p in s.programs :: p in s.order && p in s.files)
    && (forall i, j | 0 <= i < j < |s.order| :: s.order[i] != s.order[j])
  }

  datatype FileChanges = FileChanges(changed: seq<Path>, deleted: seq<Path>)

  const NO_FILE_CHANGES := FileChanges([], [])

  datatype Changes = Changes(removed: seq<Path>, changed: map<Path, FileChanges>)

  predicate IsChanged(prev: Snapshot, next: Snapshot, p: Path) {
    p in next.programs && (p in prev.programs ==> prev.programs[p] != next.programs[p])
  }

  ghost predicate ChangesOk(prev: Snapshot, next: Snapshot, c: Changes) {
    && (forall p :: p in c.removed <==> p in prev.programs && p !in next.programs)
    && (forall i, j | 0 <= i < j < |c.removed| :: c.removed[i] != c.removed[j])
    && (forall p :: p in c.changed <==> IsChanged(prev, next, p))
    && (forall p | p in c.changed :: c.changed[p] == NO_FILE_CHANGES)
  }

  lemma OneMore(ps: seq<Path>, k: nat)
    requires k < |ps|
    ensures forall p :: p in ps[..k + 1] <==> p in ps[..k] || p == ps[k]
  {
    assert ps[..k + 1] == ps[..k] + [ps[k]];
  }

  method ComputeSnapshotChanges(prev: Snapshot, next: Snapshot) returns (c: Changes)
    requires SnapshotOk(prev) && SnapshotOk(next)
    ensures ChangesOk(prev, next, c)
  {
    var removed: seq<Path> := [];
    var i := 0;
    while i < |prev.order|
      invariant 0 <= i <= |prev.order|
      invariant forall p :: p in removed <==> p in prev.order[..i] && p !in next.programs
      invariant forall j, k | 0 <= j < k < |removed| :: removed[j] != removed[k]
    {
      OneMore(prev.order, i);
      if prev.order[i] !in next.programs {
        removed := removed + [prev.order[i]];
      }
      i := i + 1;
    }
    var changed: map<Path, FileChanges> := map[];
    var k := 0;
    while k < |next.order|
      invariant 0 <= k <= |next.order|
      invariant forall p :: p in changed <==> p in next.order[..k] && IsChanged(prev, next, p)
      invariant forall p | p in changed :: changed[p] == NO_FILE_CHANGES
    {
      var p := next.order[k];
      OneMore(next.order, k);
      if p !in prev.programs || prev.programs[p] != next.programs[p] {
        changed := changed[p := NO_FILE_CHANGES];
      }
      k := k + 1;
    }
    assert prev.order[..|prev.order|] == prev.order && next.order[..|next.order|] == next.order;
    c := Changes(removed, changed);
  }

  /** A client that holds the previous programs and asks for those reported as changed ends up with the next ones. */
  lemma ChangesRebuild(prev: Snapshot, next: Snapshot, c: Changes, fetched: map<Path, nat>)
    requires ChangesOk(prev, next, c)
    requires fetched.Keys == c.changed.Keys && forall p | p in fetched :: fetched[p] == next.programs[p]
    ensures (prev.programs - (set p | p in c.removed)) + fetched == next.programs
  {
    var rebuilt := (prev.programs - (set p | p in c.removed)) + fetched;
    forall p ensures p in rebuilt <==> p in next.programs
    {
      assert IsChanged(prev, next, p) <==> p in c.changed;
    }
  }

  /** Nothing is reported exactly when the programs are the same. */
  lemma NoChanges(prev: Snapshot, next: Snapshot, c: Changes)
    requires ChangesOk(prev, next, c)
    ensures c.removed == [] && c.changed == map[] <==> prev.programs == next.programs
  {
    assert c.removed == [] || c.removed[0] in c.removed;
    if c.removed == [] && c.changed == map[] {
      forall p ensures p in prev.programs <==> p in next.programs {
        assert IsChanged(prev, next, p) <==> p in c.changed;
      }
      forall p | p in prev.programs ensures prev.programs[p] == next.programs[p] {
        assert IsChanged(prev, next, p) <==> p in c.changed;
      }
    }
  }

  /** What the changes should say about the files of a project in both snapshots: which are new or have another version,
    * and which are gone.
    */
  ghost predicate FilesOk(before: Files, after: Files, c: FileChanges) {
    && (forall f :: f in c.changed <==> f in after && (f in before ==> before[f] != after[f]))
    && (forall f :: f in c.deleted <==> f in before && f !in after)
  }

  lemma SameFilesIff(before: Files, after: Files)
    ensures FilesOk(before, after, NO_FILE_CHANGES) <==> before == after
  {
    if before != after && forall f | f in after :: f in before && before[f] == after[f] {
      var f :| f in before && f !in after;
      assert f !in NO_FILE_CHANGES.deleted;
    }
    if f :| f in after && (f !in before || before[f] != after[f]) {
      assert f !in NO_FILE_CHANGES.changed;
    }
  }

  /** The file lists are never filled: they are right exactly if no project that is reported has other files. */
  lemma FilesReportedIff(prev: Snapshot, next: Snapshot, c: Changes)
    requires SnapshotOk(prev) && SnapshotOk(next) && ChangesOk(prev, next, c)
    ensures (forall p | p in c.changed && p in prev.programs ::
               FilesOk(prev.files[p], next.files[p], c.changed[p])) <==>
              (forall p | p in prev.programs && p in next.programs && prev.programs[p] != next.programs[p] ::
                 prev.files[p] == next.files[p])
  {
    forall p | p in c.changed && p in prev.programs
      ensures FilesOk(prev.files[p], next.files[p], c.changed[p]) <==> prev.files[p] == next.files[p]
    {
      SameFilesIff(prev.files[p], next.files[p]);
    }
    assert forall p | p in prev.programs && p in next.programs ::
        p in c.changed <==> prev.programs[p] != next.programs[p];
  }

  /** For instance a file that was edited is not among the files of its project that changed. */
  lemma EditedFileNotReported(project: Path, file: Path, c: Changes)
    requires var prev := Snapshot(1, [project], map[project := 1], map[project := map[file := 1]]);
             var next := Snapshot(2, [project], map[project := 2], map[project := map[file := 2]]);
             ChangesOk(prev, next, c)
    ensures project in c.changed && c.changed[project].changed == []
    ensures !FilesOk(map[file := 1], map[file := 2], c.changed[project])
  {
    var prev := Snapshot(1, [project], map[project := 1], map[project := map[file := 1]]);
    var next := Snapshot(2, [project], map[project := 2], map[project := map[file := 2]]);
    assert IsChanged(prev, next, project);
    SameFilesIff(map[file := 1], map[file := 2]);
    assert map[file := 1 as nat][file] != map[file := 2 as nat][file];
  }

  // ---- the project session's reference table ----

  class ProjectSession {
    /** References handed out and not yet released, by snapshot id. */
    var held: multiset<nat>
    var acquired: nat
    var released: nat

    ghost predicate Valid()
      reads this
    {
      acquired == released + |held|
    }

    constructor ()
      ensures Valid() && held == multiset{} && acquired == released == 0
    {
      held, acquired, released := multiset{}, 0, 0;
    }

    method Acquire(s: Snapshot)
      requires Valid()
      modifies this
      ensures Valid() && held == old(held) + multiset{s.id}
      ensures acquired == old(acquired) + 1 && released == old(released)
    {
      held := held + multiset{s.id};
      acquired := acquired + 1;
    }

    method Release(s: Snapshot)
      requires Valid() && s.id in held
      modifies this
      ensures Valid() && held == old(held) - multiset{s.id}
      ensures released == old(released) + 1 && acquired == old(acquired)
    {
      held := held - multiset{s.id};
      released := released + 1;
    }
  }

  // ---- the session ----

  datatype SnapshotData = SnapshotData(snapshot: Snapshot, refCount: int)

  datatype Event = Updated(handle: string) | Released(handle: string) | ClosedAll

  /** Clients that still hold a snapshot: updates that returned it minus releases, since it was last gone. */
  function Outstanding(log: seq<Event>, h: string): nat {
    if log == [] then 0
    else
      var before := Outstanding(log[..|log| - 1], h);
      Effect(log[|log| - 1], h, before)
  }

  function Effect(e: Event, h: string, before: nat): nat {
    match e
    case Updated(k) => if k == h then before + 1 else before
    case Released(k) => if k == h && before > 0 then before - 1 else before
    case ClosedAll => 0
  }

  datatype Error = LoadFailed(message: string) | EmptyHandle | WrongPrefix(prefix: char) | NotFound(handle: string)

  datatype UpdateResponse = UpdateResponse(handle: string, projects: seq<Path>, changes: Option<Changes>)

  /** The ids of the stored snapshots. */
  ghost function Ids(snapshots: map<string, SnapshotData>): set<nat> {
    set h | h in snapshots :: snapshots[h].snapshot.id
  }

  predicate EntryOk(h: string, d: SnapshotData) {
    h == HandleOf(d.snapshot.id) && SnapshotOk(d.snapshot) && d.refCount >= 1
  }

  lemma {:induction false} IdsCount(snapshots: map<string, SnapshotData>)
    requires forall h | h in snapshots :: EntryOk(h, snapshots[h])
    ensures |Ids(snapshots)| == |snapshots|
    decreases |snapshots|
  {
    if snapshots != map[] {
      var h :| h in snapshots;
      var rest := snapshots - {h};
      IdsRemoved(snapshots, h);
      IdsCount(rest);
      assert |rest| == |snapshots| - 1 by {
        assert rest.Keys == snapshots.Keys - {h};
      }
    } else {
      assert Ids(snapshots) == {};
    }
  }

  lemma IdsRemoved(snapshots: map<string, SnapshotData>, h: string)
    requires h in snapshots && forall k | k in snapshots :: EntryOk(k, snapshots[k])
    ensures Ids(snapshots - {h}) == Ids(snapshots) - {snapshots[h].snapshot.id}
    ensures snapshots[h].snapshot.id in Ids(snapshots)
  {
    hide HandleOf;
    var rest := snapshots - {h};
    forall k | k in snapshots && k != h ensures snapshots[k].snapshot.id != snapshots[h].snapshot.id {
      assert EntryOk(k, snapshots[k]) && EntryOk(h, snapshots[h]);
    }
    forall id | id in Ids(snapshots) && id != snapshots[h].snapshot.id ensures id in Ids(rest) {
      var k :| k in snapshots && snapshots[k].snapshot.id == id;
      assert k in rest && rest[k].snapshot.id == id;
    }
  }

  lemma IdsAdded(snapshots: map<string, SnapshotData>, h: string, d: SnapshotData)
    requires h !in snapshots && EntryOk(h, d) && forall k | k in snapshots :: EntryOk(k, snapshots[k])
    ensures Ids(snapshots[h := d]) == Ids(snapshots) + {d.snapshot.id}
    ensures d.snapshot.id !in Ids(snapshots)
  {
    hide HandleOf;
    var after := snapshots[h := d];
    assert after[h] == d;
    forall id ensures id in Ids(after) <==> id in Ids(snapshots) + {d.snapshot.id} {
      if id in Ids(snapshots) {
        var k :| k in snapshots && snapshots[k].snapshot.id == id;
        assert after[k].snapshot.id == id;
      }
    }
    forall k | k in snapshots ensures snapshots[k].snapshot.id != d.snapshot.id {
      assert EntryOk(k, snapshots[k]);
    }
  }

  lemma IdsSame(snapshots: map<string, SnapshotData>, h: string, d: SnapshotData)
    requires h in snapshots && d.snapshot == snapshots[h].snapshot
    ensures Ids(snapshots[h := d]) == Ids(snapshots)
  {
    var after := snapshots[h := d];
    forall k | k in snapshots ensures after[k].snapshot.id == snapshots[k].snapshot.id {
    }
    assert after.Keys == snapshots.Keys;
    forall id | id in Ids(snapshots) ensures id in Ids(after) {
      var k :| k in snapshots && snapshots[k].snapshot.id == id;
      assert k in after && after[k].snapshot.id == id;
    }
  }

  lemma Logged(log: seq<Event>, e: Event)
    ensures forall h :: Outstanding(log + [e], h) == Effect(e, h, Outstanding(log, h))
  {
    assert (log + [e])[..|log|] == log;
  }

  lemma AddedOne(ids: set<nat>, id: nat)
    requires id !in ids
    ensures multiset(ids + {id}) == multiset(ids) + multiset{id}
  {
  }

  /** The books: each count is the number of holders the log knows, and each stored snapshot has its one reference. */
  ghost predicate Balanced(held: multiset<nat>, snapshots: map<string, SnapshotData>, log: seq<Event>,
                           leaked: multiset<nat>) {
    && (forall h | h in snapshots :: EntryOk(h, snapshots[h]))
    && (forall h :: Outstanding(log, h) == Count(snapshots, h))
    && held == multiset(Ids(snapshots)) + leaked
  }

  function Count(snapshots: map<string, SnapshotData>, h: string): int {
    if h in snapshots then snapshots[h].refCount else 0
  }

  /** The entry of a snapshot that was returned once more. */
  function Stored(snapshots: map<string, SnapshotData>, snapshot: Snapshot): SnapshotData {
    var h := HandleOf(snapshot.id);
    SnapshotData(snapshot, if h in snapshots then snapshots[h].refCount + 1 else 1)
  }

  lemma HandleFound(held: multiset<nat>, snapshots: map<string, SnapshotData>, log: seq<Event>, leaked: multiset<nat>,
                    h: string)
    requires Balanced(held, snapshots, log, leaked) && h in snapshots
    ensures h != "" && h[0] == 'n'
  {
    HandleShape(snapshots[h].snapshot.id);
  }

  lemma StoreBalanced(held: multiset<nat>, snapshots: map<string, SnapshotData>, log: seq<Event>, leaked: multiset<nat>,
                      snapshot: Snapshot)
    requires Balanced(held, snapshots, log, leaked) && SnapshotOk(snapshot)
    requires HandleOf(snapshot.id) in snapshots ==> snapshots[HandleOf(snapshot.id)].snapshot == snapshot
    ensures var h := HandleOf(snapshot.id);
            Balanced(held + (if h in snapshots then multiset{} else multiset{snapshot.id}),
                     snapshots[h := Stored(snapshots, snapshot)], log + [Updated(h)], leaked)
  {
    hide HandleOf, Outstanding, Ids;
    var h := HandleOf(snapshot.id);
    var d := Stored(snapshots, snapshot);
    Logged(log, Updated(h));
    if h in snapshots {
      IdsSame(snapshots, h, d);
    } else {
      IdsAdded(snapshots, h, d);
      AddedOne(Ids(snapshots), snapshot.id);
    }
  }

  lemma ReleaseBalanced(held: multiset<nat>, snapshots: map<string, SnapshotData>, log: seq<Event>,
                        leaked: multiset<nat>, h: string)
    requires Balanced(held, snapshots, log, leaked) && h in snapshots
    ensures var d := snapshots[h];
            && d.snapshot.id in held
            && d.refCount >= 1
            && (d.refCount > 1 ==>
                  Balanced(held, snapshots[h := d.(refCount := d.refCount - 1)], log + [Released(h)], leaked))
            && (d.refCount == 1 ==>
                  Balanced(held - multiset{d.snapshot.id}, snapshots - {h}, log + [Released(h)], leaked))
  {
    hide HandleOf, Outstanding, Ids;
    var d := snapshots[h];
    assert EntryOk(h, d);
    Logged(log, Released(h));
    IdsRemoved(snapshots, h);
    if d.refCount > 1 {
      IdsSame(snapshots, h, d.(refCount := d.refCount - 1));
    } else {
      AddedOne(Ids(snapshots) - {d.snapshot.id}, d.snapshot.id);
      assert Ids(snapshots) - {d.snapshot.id} + {d.snapshot.id} == Ids(snapshots);
    }
  }

  /** Conservation: references taken and not given back are one per stored snapshot, plus those lost by closing. */
  lemma Conservation(held: multiset<nat>, snapshots: map<string, SnapshotData>, log: seq<Event>, leaked: multiset<nat>)
    requires Balanced(held, snapshots, log, leaked)
    ensures |held| == |snapshots| + |leaked|
    ensures leaked == multiset{} ==> forall h | h in snapshots :: held[snapshots[h].snapshot.id] == 1
    ensures forall h | h in snapshots :: snapshots[h].refCount == Outstanding(log, h) >= 1
  {
    IdsCount(snapshots);
    assert |multiset(Ids(snapshots))| == |Ids(snapshots)|;
    forall h | h in snapshots
      ensures snapshots[h].snapshot.id in Ids(snapshots) && snapshots[h].refCount == Outstanding(log, h) >= 1
    {
      assert Outstanding(log, h) == Count(snapshots, h);
      assert EntryOk(h, snapshots[h]);
    }
  }

  class Session {
    const project: ProjectSession
    var snapshots: map<string, SnapshotData>
    var latest: string
    ghost var log: seq<Event>
    /** References that were given up for lost by closing the session. */
    ghost var leaked: multiset<nat>

    ghost predicate Valid()
      reads this, project
    {
      project.Valid() && Balanced(project.held, snapshots, log, leaked)
    }

    constructor (project: ProjectSession)
      requires project.Valid() && project.held == multiset{}
      ensures this.project == project && Valid() && log == [] && leaked == multiset{}
              && snapshots == map[] && latest == ""
    {
      this.project := project;
      snapshots, latest := map[], "";
      log, leaked := [], multiset{};
    }

    /** Stores a snapshot with the reference it came with, or counts one more holder of the stored one and gives the
      * reference back.
      */
    method Store(snapshot: Snapshot, ghost held: multiset<nat>)
      requires project.Valid() && project.held == held + multiset{snapshot.id}
      requires Balanced(held, snapshots, log, leaked) && SnapshotOk(snapshot)
      requires HandleOf(snapshot.id) in snapshots ==> snapshots[HandleOf(snapshot.id)].snapshot == snapshot
      modifies this`snapshots, this`log, project
      ensures Valid()
      ensures snapshots == old(snapshots)[HandleOf(snapshot.id) := Stored(old(snapshots), snapshot)]
      ensures project.held == if HandleOf(snapshot.id) in old(snapshots) then held else held + multiset{snapshot.id}
      ensures log == old(log) + [Updated(HandleOf(snapshot.id))]
    {
      hide HandleOf, Balanced, SnapshotOk;
      var handle := HandleOf(snapshot.id);
      StoreBalanced(held, snapshots, log, leaked, snapshot);
      if handle in snapshots {
        project.Release(snapshot);
        assert project.held == held == held + multiset{};
        var data := snapshots[handle];
        snapshots := snapshots[handle := data.(refCount := data.refCount + 1)];
      } else {
        snapshots := snapshots[handle := SnapshotData(snapshot, 1)];
      }
      log := log + [Updated(handle)];
    }

    /** The changes since the latest snapshot a client was given, if that one is still stored. */
    method ChangesSinceLatest(snapshot: Snapshot) returns (changes: Option<Changes>)
      requires Valid() && SnapshotOk(snapshot)
      ensures changes.Some? <==> latest in snapshots
      ensures changes.Some? ==> ChangesOk(snapshots[latest].snapshot, snapshot, changes.value)
    {
      changes := None;
      if latest in snapshots {
        assert EntryOk(latest, snapshots[latest]);
        var c := ComputeSnapshotChanges(snapshots[latest].snapshot, snapshot);
        changes := Some(c);
      }
    }

    /** Takes in the snapshot the project session returned for an update; `failure` says that a project could not be
      * opened.
      */
    method HandleUpdateSnapshot(snapshot: Snapshot, failure: Option<string>)
      returns (r: Result<UpdateResponse, Error>)
      requires Valid() && SnapshotOk(snapshot)
      requires HandleOf(snapshot.id) in snapshots ==> snapshots[HandleOf(snapshot.id)].snapshot == snapshot
      modifies this, project
      ensures Valid() && leaked == old(leaked)
      ensures failure.Some? ==>
                && r == Err(LoadFailed(failure.value))
                && snapshots == old(snapshots) && latest == old(latest) && log == old(log)
                && project.held == old(project.held)
      ensures failure.None? ==>
                && var h := HandleOf(snapshot.id);
                   && r.Ok? && r.value.handle == h && r.value.projects == snapshot.order
                   && latest == h && log == old(log) + [Updated(h)]
                   && (if h in old(snapshots) then
                         && snapshots == old(snapshots)[h := SnapshotData(snapshot, old(snapshots)[h].refCount + 1)]
                         && project.held == old(project.held)
                       else
                         && snapshots == old(snapshots)[h := SnapshotData(snapshot, 1)]
                         && project.held == old(project.held) + multiset{snapshot.id})
                   // Changes are reported against the latest snapshot if it is still stored.
                   && (if old(latest) in snapshots
                       then r.value.changes.Some?
                          && ChangesOk(snapshots[old(latest)].snapshot, snapshot, r.value.changes.value)
                       else r.value.changes.None?)
    {
      hide HandleOf, Balanced, ChangesOk, SnapshotOk, Outstanding;
      project.Acquire(snapshot);
      if failure.Some? {
        project.Release(snapshot);
        assert project.held == old(project.held);
        return Err(LoadFailed(failure.value));
      }
      var handle := HandleOf(snapshot.id);
      Store(snapshot, old(project.held));
      var changes := ChangesSinceLatest(snapshot);
      latest := handle;
      r := Ok(UpdateResponse(handle, snapshot.order, changes));
    }

    /** Gives one client's hold on a snapshot back. */
    method HandleRelease(handle: string) returns (r: Result<bool, Error>)
      requires Valid()
      modifies this`snapshots, this`log, project
      ensures Valid()
      ensures r.Ok? <==> handle in old(snapshots)
      ensures handle == "" ==> r == Err(EmptyHandle)
      ensures handle != "" && handle[0] != 'n' ==> r == Err(WrongPrefix(handle[0]))
      ensures handle != "" && handle[0] == 'n' && handle !in old(snapshots) ==> r == Err(NotFound(handle))
      ensures r.Err? ==> snapshots == old(snapshots) && log == old(log) && project.held == old(project.held)
      ensures r.Ok? ==>
                && log == old(log) + [Released(handle)]
                && var data := old(snapshots)[handle];
                   if data.refCount == 1 then
                     snapshots == old(snapshots) - {handle}
                     && project.held == old(project.held) - multiset{data.snapshot.id}
                   else
                     snapshots == old(snapshots)[handle := data.(refCount := data.refCount - 1)]
                     && project.held == old(project.held)
    {
      hide HandleOf, Balanced;
      if handle in snapshots {
        HandleFound(project.held, snapshots, log, leaked, handle);
        ReleaseBalanced(project.held, snapshots, log, leaked, handle);
      }
      if handle == "" {
        return Err(EmptyHandle);
      }
      var prefix := handle[0];
      if prefix != 'n' {
        return Err(WrongPrefix(prefix));
      }
      if handle !in snapshots {
        return Err(NotFound(handle));
      }
      var data := snapshots[handle];
      snapshots := snapshots[handle := data.(refCount := data.refCount - 1)];
      if data.refCount <= 1 {
        snapshots := snapshots - {handle};
        assert snapshots == old(snapshots) - {handle};
        project.Release(data.snapshot);
      }
      log := log + [Released(handle)];
      r := Ok(true);
    }

    /** Forgets all snapshots and gives no reference back: exactly the stored snapshots' references are lost. */
    method Close()
      requires Valid()
      modifies this`snapshots, this`log, this`leaked
      ensures Valid() && snapshots == map[]
      ensures leaked == old(leaked) + multiset(Ids(old(snapshots)))
      ensures |leaked| == |old(leaked)| + |old(snapshots)|
      ensures project.acquired == project.released + |leaked|
    {
      hide HandleOf;
      Conservation(project.held, snapshots, log, leaked);
      IdsCount(snapshots);
      leaked := leaked + multiset(Ids(snapshots));
      assert |multiset(Ids(snapshots))| == |Ids(snapshots)|;
      Logged(log, ClosedAll);
      log := log + [ClosedAll];
      snapshots := map[];
      assert Ids(snapshots) == {};
      assert multiset(Ids(snapshots)) == multiset{};
    }
  }

  lemma HandleShape(id: nat)
    ensures HandleOf(id) != "" && HandleOf(id)[0] == 'n'
  {
  }
}
