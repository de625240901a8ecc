/** Building the path-to-mailbox table from a flat list of mailboxes with parent links. */
module MailboxTree {
  import opened Wrappers

  datatype Mailbox = Mailbox(id: string, parentId: Option<string>, name: string)

  predicate UniqueIds(ms: seq<Mailbox>) {
    forall i, j | 0 <= i < j < |ms| :: ms[i].id != ms[j].id
  }

  /** The path is the names from a root down to mailbox i. */
  ghost predicate HasPath(ms: seq<Mailbox>, i: nat, path: seq<string>)
    decreases |path|
  {
    && i < |ms| && path != [] && path[|path| - 1] == ms[i].name
    && if ms[i].parentId.None? then |path| == 1
       else exists j :: 0 <= j < |ms| && Some(ms[j].id) == ms[i].parentId && HasPath(ms, j, path[..|path| - 1])
  }

  lemma {:induction false} PathUnique(ms: seq<Mailbox>, i: nat, p: seq<string>, q: seq<string>)
    requires UniqueIds(ms) && HasPath(ms, i, p) && HasPath(ms, i, q)
    ensures p == q
    decreases |p|
  {
    assert p == p[..|p| - 1] + [ms[i].name] && q == q[..|q| - 1] + [ms[i].name];
    if ms[i].parentId.Some? {
      var j :| 0 <= j < |ms| && Some(ms[j].id) == ms[i].parentId && HasPath(ms, j, p[..|p| - 1]);
      var k :| 0 <= k < |ms| && Some(ms[k].id) == ms[i].parentId && HasPath(ms, k, q[..|q| - 1]);
      assert j == k;
      PathUnique(ms, j, p[..|p| - 1], q[..|q| - 1]);
    }
  }

  datatype Frame = Frame(path: seq<string>, parent: Option<string>, next: nat)

  // The frame that scans the children of a mailbox, or of the root for None.
  function OwnerId(ms: seq<Mailbox>, owner: Option<nat>): Option<string>
    requires owner.Some? ==> owner.value < |ms|
  {
    if owner.None? then None else Some(ms[owner.value].id)
  }

  predicate IsChild(ms: seq<Mailbox>, c: nat, owner: Option<nat>)
    requires owner.Some? ==> owner.value < |ms|
  {
    c < |ms| && ms[c].parentId == OwnerId(ms, owner)
  }

  ghost predicate Owners(ms: seq<Mailbox>, paths: map<nat, seq<string>>, frames: seq<Frame>, owners: seq<Option<nat>>) {
    && |owners| == |frames| > 0
    && (forall k | 0 <= k < |owners| && owners[k].Some? :: owners[k].value < |ms| && owners[k].value in paths)
    && (forall k | 0 <= k < |owners| ::
          && frames[k].parent == OwnerId(ms, owners[k])
          && frames[k].path == (if owners[k].None? then [] else paths[owners[k].value])
          && frames[k].next <= |ms|)
    && (forall j, k | 0 <= j < k < |owners| :: owners[j] != owners[k])
    && owners[0] == None
  }

  // A child of an open frame has been visited exactly when the frame is past it.
  ghost predicate Scanned(ms: seq<Mailbox>, paths: map<nat, seq<string>>, frames: seq<Frame>, owners: seq<Option<nat>>)
    requires Owners(ms, paths, frames, owners)
  {
    forall k, c | 0 <= k < |frames| && 0 <= c < |ms| && IsChild(ms, c, owners[k]) :: c in paths <==> c < frames[k].next
  }

  // The children of a visited mailbox without an open frame have all been visited.
  ghost predicate Finished(ms: seq<Mailbox>, paths: map<nat, seq<string>>, owners: seq<Option<nat>>) {
    forall m, c | m in paths && m < |ms| && Some(m) !in owners && 0 <= c < |ms| && IsChild(ms, c, Some(m)) :: c in paths
  }

  ghost predicate Visited(ms: seq<Mailbox>, paths: map<nat, seq<string>>) {
    && (forall m | m in paths :: m < |ms| && HasPath(ms, m, paths[m]))
    && (forall c | c in paths && ms[c].parentId.Some? :: exists m :: m in paths && Some(ms[m].id) == ms[c].parentId)
  }

  ghost predicate Recorded(ms: seq<Mailbox>, paths: map<nat, seq<string>>, results: map<seq<string>, Mailbox>) {
    && (forall m | m in paths :: paths[m] in results)
    && (forall p | p in results :: exists m :: m in paths && m < |ms| && paths[m] == p && results[p] == ms[m])
  }

  ghost predicate Inv(ms: seq<Mailbox>, paths: map<nat, seq<string>>, frames: seq<Frame>, owners: seq<Option<nat>>,
                      results: map<seq<string>, Mailbox>)
  {
    && Owners(ms, paths, frames, owners)
    && Scanned(ms, paths, frames, owners)
    && Finished(ms, paths, owners)
    && Visited(ms, paths)
    && Recorded(ms, paths, results)
  }

  // The path of a child of the current frame.
  lemma ChildPath(ms: seq<Mailbox>, paths: map<nat, seq<string>>, frames: seq<Frame>, owners: seq<Option<nat>>, c: nat)
    requires Owners(ms, paths, frames, owners) && Visited(ms, paths)
    requires c < |ms| && ms[c].parentId == frames[|frames| - 1].parent
    ensures HasPath(ms, c, frames[|frames| - 1].path + [ms[c].name])
  {
    var f, o := frames[|frames| - 1], owners[|owners| - 1];
    var p := f.path + [ms[c].name];
    assert p[..|p| - 1] == f.path;
    if o.Some? {
      assert HasPath(ms, o.value, f.path) && Some(ms[o.value].id) == ms[c].parentId;
    }
  }

  // The frame owned by the parent of c is the current one.
  lemma OnlyFrame(ms: seq<Mailbox>, paths: map<nat, seq<string>>, frames: seq<Frame>, owners: seq<Option<nat>>, c: nat, k: nat)
    requires UniqueIds(ms) && Owners(ms, paths, frames, owners)
    requires c < |ms| && k < |frames| - 1 && ms[c].parentId == frames[|frames| - 1].parent
    ensures !IsChild(ms, c, owners[k])
  {
    var n := |frames| - 1;
    assert owners[k] != owners[n];
    assert frames[n].parent == OwnerId(ms, owners[n]);
  }

  function Advance(frames: seq<Frame>): seq<Frame>
    requires frames != []
  {
    var n := |frames| - 1;
    frames[n := frames[n].(next := frames[n].next + 1)]
  }

  lemma AdvanceOwners(ms: seq<Mailbox>, paths: map<nat, seq<string>>, frames: seq<Frame>, owners: seq<Option<nat>>, c: nat, p: seq<string>)
    requires Owners(ms, paths, frames, owners) && c !in paths && frames[|frames| - 1].next < |ms|
    ensures Owners(ms, paths[c := p], Advance(frames), owners)
  {
  }

  lemma VisitScanned(ms: seq<Mailbox>, paths: map<nat, seq<string>>, frames: seq<Frame>, owners: seq<Option<nat>>, c: nat, p: seq<string>)
    requires UniqueIds(ms) && Owners(ms, paths, frames, owners) && Scanned(ms, paths, frames, owners)
    requires c == frames[|frames| - 1].next < |ms| && ms[c].parentId == frames[|frames| - 1].parent
    requires Owners(ms, paths[c := p], Advance(frames), owners)
    ensures Scanned(ms, paths[c := p], Advance(frames), owners)
  {
    var n := |frames| - 1;
    var paths', frames' := paths[c := p], Advance(frames);
    forall k, d | 0 <= k < |frames'| && 0 <= d < |ms| && IsChild(ms, d, owners[k])
      ensures d in paths' <==> d < frames'[k].next
    {
      if k < n {
        OnlyFrame(ms, paths, frames, owners, c, k);
      }
    }
  }

  lemma VisitVisited(ms: seq<Mailbox>, paths: map<nat, seq<string>>, o: Option<nat>, c: nat, p: seq<string>)
    requires Visited(ms, paths) && c < |ms| && HasPath(ms, c, p)
    requires o.Some? ==> o.value in paths
    requires o.Some? ==> ms[c].parentId == Some(ms[o.value].id)
    requires o.None? ==> ms[c].parentId == None
    ensures Visited(ms, paths[c := p])
  {
    var paths' := paths[c := p];
    forall d | d in paths' && ms[d].parentId.Some? ensures exists m :: m in paths' && Some(ms[m].id) == ms[d].parentId {
      if d == c {
        assert o.value in paths';
      } else {
        var m :| m in paths && Some(ms[m].id) == ms[d].parentId;
        assert m in paths';
      }
    }
  }

  lemma VisitRecorded(ms: seq<Mailbox>, paths: map<nat, seq<string>>, results: map<seq<string>, Mailbox>, c: nat, p: seq<string>)
    requires Recorded(ms, paths, results) && c < |ms| && c !in paths
    ensures Recorded(ms, paths[c := p], results[p := ms[c]])
  {
    var paths', results' := paths[c := p], results[p := ms[c]];
    forall q | q in results' ensures exists m :: m in paths' && m < |ms| && paths'[m] == q && results'[q] == ms[m] {
      if q == p {
        assert paths'[c] == q;
      } else {
        var m :| m in paths && m < |ms| && paths[m] == q && results[q] == ms[m];
        assert paths'[m] == q;
      }
    }
  }

  // What visiting the next child of the current frame keeps, whether or not a frame is opened for it.
  lemma Visit(ms: seq<Mailbox>, paths: map<nat, seq<string>>, frames: seq<Frame>, owners: seq<Option<nat>>,
              results: map<seq<string>, Mailbox>, c: nat, p: seq<string>)
    requires UniqueIds(ms) && Inv(ms, paths, frames, owners, results)
    requires c == frames[|frames| - 1].next < |ms| && ms[c].parentId == frames[|frames| - 1].parent
    requires p == frames[|frames| - 1].path + [ms[c].name]
    ensures c !in paths
    ensures Owners(ms, paths[c := p], Advance(frames), owners)
    ensures Scanned(ms, paths[c := p], Advance(frames), owners)
    ensures Visited(ms, paths[c := p])
    ensures Recorded(ms, paths[c := p], results[p := ms[c]])
  {
    assert IsChild(ms, c, owners[|owners| - 1]);
    assert c !in paths;
    AdvanceOwners(ms, paths, frames, owners, c, p);
    VisitScanned(ms, paths, frames, owners, c, p);
    ChildPath(ms, paths, frames, owners, c);
    VisitVisited(ms, paths, owners[|owners| - 1], c, p);
    VisitRecorded(ms, paths, results, c, p);
  }

  // Visiting a child that no mailbox names as its parent.
  lemma VisitLeaf(ms: seq<Mailbox>, paths: map<nat, seq<string>>, frames: seq<Frame>, owners: seq<Option<nat>>,
                  results: map<seq<string>, Mailbox>, c: nat, p: seq<string>)
    requires UniqueIds(ms) && Inv(ms, paths, frames, owners, results)
    requires c == frames[|frames| - 1].next < |ms| && ms[c].parentId == frames[|frames| - 1].parent
    requires p == frames[|frames| - 1].path + [ms[c].name]
    requires forall d | 0 <= d < |ms| :: ms[d].parentId != Some(ms[c].id)
    ensures c !in paths && Inv(ms, paths[c := p], Advance(frames), owners, results[p := ms[c]])
  {
    Visit(ms, paths, frames, owners, results, c, p);
  }

  // Visiting a child and opening a frame for its own children.
  lemma VisitParent(ms: seq<Mailbox>, paths: map<nat, seq<string>>, frames: seq<Frame>, owners: seq<Option<nat>>,
                    results: map<seq<string>, Mailbox>, c: nat, p: seq<string>)
    requires UniqueIds(ms) && Inv(ms, paths, frames, owners, results)
    requires c == frames[|frames| - 1].next < |ms| && ms[c].parentId == frames[|frames| - 1].parent
    requires p == frames[|frames| - 1].path + [ms[c].name]
    ensures c !in paths
    ensures Inv(ms, paths[c := p], Advance(frames) + [Frame(p, Some(ms[c].id), 0)], owners + [Some(c)], results[p := ms[c]])
  {
    Visit(ms, paths, frames, owners, results, c, p);
    var paths' := paths[c := p];
    forall d | 0 <= d < |ms| && IsChild(ms, d, Some(c)) ensures d !in paths' {
      NoVisitedChild(ms, paths, owners[|owners| - 1], c, d);
    }
    OpenFrame(ms, paths', Advance(frames), owners, c, p);
    FinishedUnlessOpen(ms, paths, owners, c, p);
  }

  lemma FinishedUnlessOpen(ms: seq<Mailbox>, paths: map<nat, seq<string>>, owners: seq<Option<nat>>, c: nat, p: seq<string>)
    requires Finished(ms, paths, owners)
    ensures Finished(ms, paths[c := p], owners + [Some(c)])
  {
    var paths', owners' := paths[c := p], owners + [Some(c)];
    assert owners'[|owners|] == Some(c);
    assert forall o | o in owners :: o in owners';
    forall m, d | m in paths' && m < |ms| && Some(m) !in owners' && 0 <= d < |ms| && IsChild(ms, d, Some(m))
      ensures d in paths'
    {
      assert m in paths && Some(m) !in owners;
    }
  }

  // No child of an unvisited mailbox has been visited, nor is the mailbox its own child.
  lemma NoVisitedChild(ms: seq<Mailbox>, paths: map<nat, seq<string>>, o: Option<nat>, c: nat, d: nat)
    requires UniqueIds(ms) && Visited(ms, paths) && c < |ms| && c !in paths && d < |ms| && ms[d].parentId == Some(ms[c].id)
    requires o.Some? ==> o.value in paths
    requires ms[c].parentId == if o.Some? then Some(ms[o.value].id) else None
    ensures d !in paths && d != c
  {
    assert forall m | m in paths :: ms[m].id != ms[c].id;
  }

  lemma OpenFrame(ms: seq<Mailbox>, paths: map<nat, seq<string>>, frames: seq<Frame>, owners: seq<Option<nat>>, c: nat, p: seq<string>)
    requires Owners(ms, paths, frames, owners) && Scanned(ms, paths, frames, owners)
    requires c in paths && c < |ms| && paths[c] == p && Some(c) !in owners
    requires forall d | 0 <= d < |ms| && IsChild(ms, d, Some(c)) :: d !in paths
    ensures Owners(ms, paths, frames + [Frame(p, Some(ms[c].id), 0)], owners + [Some(c)])
    ensures Scanned(ms, paths, frames + [Frame(p, Some(ms[c].id), 0)], owners + [Some(c)])
  {
  }

  // Passing over a mailbox that is not a child of the current frame.
  lemma SkipOver(ms: seq<Mailbox>, paths: map<nat, seq<string>>, frames: seq<Frame>, owners: seq<Option<nat>>, results: map<seq<string>, Mailbox>)
    requires Inv(ms, paths, frames, owners, results)
    requires frames[|frames| - 1].next < |ms| && ms[frames[|frames| - 1].next].parentId != frames[|frames| - 1].parent
    ensures Inv(ms, paths, Advance(frames), owners, results)
  {
    SkipScanned(ms, paths, frames, owners);
  }

  lemma SkipScanned(ms: seq<Mailbox>, paths: map<nat, seq<string>>, frames: seq<Frame>, owners: seq<Option<nat>>)
    requires Owners(ms, paths, frames, owners) && Scanned(ms, paths, frames, owners)
    requires frames[|frames| - 1].next < |ms| && ms[frames[|frames| - 1].next].parentId != frames[|frames| - 1].parent
    ensures Owners(ms, paths, Advance(frames), owners) && Scanned(ms, paths, Advance(frames), owners)
  {
    var n, frames' := |frames| - 1, Advance(frames);
    assert forall k | 0 <= k < n :: frames'[k] == frames[k];
    assert frames'[n] == frames[n].(next := frames[n].next + 1);
    assert !IsChild(ms, frames[n].next, owners[n]);
    forall k, d | 0 <= k < |frames'| && 0 <= d < |ms| && IsChild(ms, d, owners[k])
      ensures d in paths <==> d < frames'[k].next
    {
      assert d in paths <==> d < frames[k].next;
    }
  }

  // Closing the current frame once its scan has ended.
  lemma CloseFrame(ms: seq<Mailbox>, paths: map<nat, seq<string>>, frames: seq<Frame>, owners: seq<Option<nat>>, results: map<seq<string>, Mailbox>)
    requires Inv(ms, paths, frames, owners, results) && |frames| > 1 && frames[|frames| - 1].next == |ms|
    ensures Inv(ms, paths, frames[..|frames| - 1], owners[..|owners| - 1], results)
  {
    CloseFinished(ms, paths, frames, owners);
    CloseScanned(ms, paths, frames, owners);
  }

  lemma CloseScanned(ms: seq<Mailbox>, paths: map<nat, seq<string>>, frames: seq<Frame>, owners: seq<Option<nat>>)
    requires Owners(ms, paths, frames, owners) && Scanned(ms, paths, frames, owners) && |frames| > 1
    ensures Owners(ms, paths, frames[..|frames| - 1], owners[..|owners| - 1])
    ensures Scanned(ms, paths, frames[..|frames| - 1], owners[..|owners| - 1])
  {
    var n := |frames| - 1;
    assert forall k | 0 <= k < n :: frames[..n][k] == frames[k] && owners[..n][k] == owners[k];
  }

  lemma CloseFinished(ms: seq<Mailbox>, paths: map<nat, seq<string>>, frames: seq<Frame>, owners: seq<Option<nat>>)
    requires Owners(ms, paths, frames, owners) && Scanned(ms, paths, frames, owners) && Finished(ms, paths, owners)
    requires |frames| > 1 && frames[|frames| - 1].next == |ms|
    ensures Finished(ms, paths, owners[..|owners| - 1])
  {
    var n := |frames| - 1;
    var owners' := owners[..n];
    assert forall k | 0 <= k < n :: owners'[k] == owners[k];
    forall m, d | m in paths && m < |ms| && Some(m) !in owners' && 0 <= d < |ms| && IsChild(ms, d, Some(m))
      ensures d in paths
    {
      if Some(m) in owners {
        assert owners[n] == Some(m);
        assert IsChild(ms, d, owners[n]);
      }
    }
  }

  /** When every scan has ended, every mailbox with a path has been visited under that path. */
  lemma {:induction false} AllVisited(ms: seq<Mailbox>, paths: map<nat, seq<string>>, frames: seq<Frame>, owners: seq<Option<nat>>,
                                      results: map<seq<string>, Mailbox>, i: nat, p: seq<string>)
    requires UniqueIds(ms) && Inv(ms, paths, frames, owners, results) && |frames| == 1 && frames[0].next == |ms|
    requires HasPath(ms, i, p)
    ensures i in paths && paths[i] == p
    decreases |p|
  {
    if ms[i].parentId.None? {
      ChildOf(ms, paths, frames, owners, None, i);
    } else {
      var j :| 0 <= j < |ms| && Some(ms[j].id) == ms[i].parentId && HasPath(ms, j, p[..|p| - 1]);
      AllVisited(ms, paths, frames, owners, results, j, p[..|p| - 1]);
      ChildOf(ms, paths, frames, owners, Some(j), i);
    }
    PathUnique(ms, i, paths[i], p);
  }

  // Once every scan has ended, the children of the root and of visited mailboxes are visited.
  lemma ChildOf(ms: seq<Mailbox>, paths: map<nat, seq<string>>, frames: seq<Frame>, owners: seq<Option<nat>>, o: Option<nat>, c: nat)
    requires Owners(ms, paths, frames, owners) && Scanned(ms, paths, frames, owners) && Finished(ms, paths, owners)
    requires |frames| == 1 && frames[0].next == |ms| && c < |ms|
    requires o.Some? ==> o.value in paths && o.value < |ms|
    requires IsChild(ms, c, o)
    ensures c in paths
  {
    if o.None? {
      assert IsChild(ms, c, owners[0]);
    } else {
      assert Some(o.value) !in owners;
    }
  }

  function UpTo(n: nat): (r: set<nat>)
    ensures |r| == n && forall i: nat :: i in r <==> i < n
  {
    if n == 0 then {} else UpTo(n - 1) + {n - 1}
  }

  lemma Bounded(ms: seq<Mailbox>, paths: map<nat, seq<string>>)
    requires forall m | m in paths :: m < |ms|
    ensures |paths| <= |ms|
  {
    assert paths.Keys <= UpTo(|ms|);
    Subset(paths.Keys, UpTo(|ms|));
  }

  lemma {:induction false} Subset(a: set<nat>, b: set<nat>)
    requires a <= b
    ensures |a| <= |b|
    decreases a
  {
    if x :| x in a {
      Subset(a - {x}, b - {x});
    }
  }

  ghost predicate IsPath(ms: seq<Mailbox>, p: seq<string>) {
    exists i: nat | i < |ms| :: HasPath(ms, i, p)
  }

  ghost predicate IsPathOf(ms: seq<Mailbox>, p: seq<string>, m: Mailbox) {
    exists i: nat | i < |ms| :: HasPath(ms, i, p) && ms[i] == m
  }

  lemma Complete(ms: seq<Mailbox>, paths: map<nat, seq<string>>, frames: seq<Frame>, owners: seq<Option<nat>>, results: map<seq<string>, Mailbox>)
    requires UniqueIds(ms) && Inv(ms, paths, frames, owners, results) && |frames| == 1 && frames[0].next == |ms|
    ensures forall p :: IsPath(ms, p) ==> p in results
    ensures forall p | p in results :: IsPathOf(ms, p, results[p])
  {
    forall p | IsPath(ms, p) ensures p in results {
      var i: nat :| i < |ms| && HasPath(ms, i, p);
      AllVisited(ms, paths, frames, owners, results, i, p);
    }
    forall p | p in results ensures IsPathOf(ms, p, results[p]) {
      var m :| m in paths && m < |ms| && paths[m] == p && results[p] == ms[m];
      assert HasPath(ms, m, p);
    }
  }

  lemma StartInv(ms: seq<Mailbox>)
    ensures Inv(ms, map[], [Frame([], None, 0)], [None], map[])
  {
  }

  // The local variables of the walk; the current frame is on top of the stack's frames.
  datatype Walk = Walk(current: Frame, stack: seq<Frame>, results: map<seq<string>, Mailbox>)

  // What the walk has done so far: visited mailboxes with their paths, and the owner of each frame.
  datatype Trace = Trace(paths: map<nat, seq<string>>, owners: seq<Option<nat>>)

  function FramesOf(w: Walk): (f: seq<Frame>)
    ensures |f| == |w.stack| + 1 && f[|f| - 1] == w.current
  {
    w.stack + [w.current]
  }

  function NextOf(w: Walk): Walk {
    w.(current := w.current.(next := w.current.next + 1))
  }

  lemma FramesAdvance(w: Walk)
    ensures FramesOf(NextOf(w)) == Advance(FramesOf(w))
  {
  }

  lemma FramesLeaf(w: Walk, results: map<seq<string>, Mailbox>)
    ensures FramesOf(NextOf(w).(results := results)) == Advance(FramesOf(w))
  {
  }

  lemma FramesOpen(w: Walk, f: Frame, results: map<seq<string>, Mailbox>)
    ensures FramesOf(Walk(f, w.stack + [NextOf(w).current], results)) == Advance(FramesOf(w)) + [f]
  {
  }

  lemma FramesResume(w: Walk)
    requires w.stack != []
    ensures var n := |w.stack| - 1;
            FramesOf(Walk(w.stack[n], w.stack[..n], w.results)) == FramesOf(w)[..|FramesOf(w)| - 1]
  {
  }

  ghost predicate WalkInv(ms: seq<Mailbox>, w: Walk, t: Trace) {
    w.current.next <= |ms| && |t.paths| <= |ms| && Inv(ms, t.paths, FramesOf(w), t.owners, w.results)
  }

  lemma MoreVisited(ms: seq<Mailbox>, paths: map<nat, seq<string>>, c: nat, p: seq<string>)
    requires Visited(ms, paths[c := p]) && c !in paths
    ensures |paths[c := p]| == |paths| + 1 <= |ms|
  {
    Bounded(ms, paths[c := p]);
    assert paths[c := p].Keys == paths.Keys + {c};
  }

  method VisitNext(ms: seq<Mailbox>, parents: set<Option<string>>, w: Walk, ghost t: Trace) returns (w': Walk, ghost t': Trace)
    requires UniqueIds(ms) && WalkInv(ms, w, t) && parents == set m | m in ms :: m.parentId
    requires w.current.next < |ms| && ms[w.current.next].parentId == w.current.parent
    ensures WalkInv(ms, w', t') && |t'.paths| == |t.paths| + 1
  {
    var mailbox := ms[w.current.next];
    var path := w.current.path + [mailbox.name];
    var results := w.results[path := mailbox];
    if Some(mailbox.id) in parents {
      var f := Frame(path, Some(mailbox.id), 0);
      t' := DescendInv(ms, w, t, path, f, results);
      w' := Walk(f, w.stack + [NextOf(w).current], results);
    } else {
      NotAParent(ms, parents, mailbox.id);
      t' := LeafInv(ms, w, t, path, results);
      w' := NextOf(w).(results := results);
    }
  }

  lemma DescendInv(ms: seq<Mailbox>, w: Walk, t: Trace, path: seq<string>, f: Frame, results: map<seq<string>, Mailbox>)
    returns (t': Trace)
    requires UniqueIds(ms) && WalkInv(ms, w, t)
    requires w.current.next < |ms| && ms[w.current.next].parentId == w.current.parent
    requires path == w.current.path + [ms[w.current.next].name]
    requires f == Frame(path, Some(ms[w.current.next].id), 0) && results == w.results[path := ms[w.current.next]]
    ensures WalkInv(ms, Walk(f, w.stack + [NextOf(w).current], results), t') && |t'.paths| == |t.paths| + 1
  {
    var c := w.current.next;
    VisitParent(ms, t.paths, FramesOf(w), t.owners, w.results, c, path);
    FramesOpen(w, f, results);
    MoreVisited(ms, t.paths, c, path);
    t' := Trace(t.paths[c := path], t.owners + [Some(c)]);
  }

  lemma LeafInv(ms: seq<Mailbox>, w: Walk, t: Trace, path: seq<string>, results: map<seq<string>, Mailbox>)
    returns (t': Trace)
    requires UniqueIds(ms) && WalkInv(ms, w, t)
    requires w.current.next < |ms| && ms[w.current.next].parentId == w.current.parent
    requires path == w.current.path + [ms[w.current.next].name] && results == w.results[path := ms[w.current.next]]
    requires forall d | 0 <= d < |ms| :: ms[d].parentId != Some(ms[w.current.next].id)
    ensures WalkInv(ms, NextOf(w).(results := results), t') && |t'.paths| == |t.paths| + 1
  {
    var c := w.current.next;
    VisitLeaf(ms, t.paths, FramesOf(w), t.owners, w.results, c, path);
    FramesLeaf(w, results);
    MoreVisited(ms, t.paths, c, path);
    t' := Trace(t.paths[c := path], t.owners);
  }

  lemma SkipInv(ms: seq<Mailbox>, w: Walk, t: Trace)
    requires WalkInv(ms, w, t) && w.current.next < |ms| && ms[w.current.next].parentId != w.current.parent
    ensures WalkInv(ms, NextOf(w), t)
  {
    SkipOver(ms, t.paths, FramesOf(w), t.owners, w.results);
    FramesAdvance(w);
  }

  method SkipNext(ms: seq<Mailbox>, w: Walk, ghost t: Trace) returns (w': Walk)
    requires WalkInv(ms, w, t) && w.current.next < |ms| && ms[w.current.next].parentId != w.current.parent
    ensures WalkInv(ms, w', t) && w' == NextOf(w)
  {
    SkipInv(ms, w, t);
    w' := w.(current := w.current.(next := w.current.next + 1));
  }

  method Resume(ms: seq<Mailbox>, w: Walk, ghost t: Trace) returns (w': Walk, ghost t': Trace)
    requires WalkInv(ms, w, t) && w.current.next == |ms| && w.stack != []
    ensures WalkInv(ms, w', t') && t'.paths == t.paths && |w'.stack| < |w.stack|
  {
    var n := |w.stack| - 1;
    CloseFrame(ms, t.paths, FramesOf(w), t.owners, w.results);
    FramesResume(w);
    w' := Walk(w.stack[n], w.stack[..n], w.results);
    t' := t.(owners := t.owners[..|t.owners| - 1]);
    NextBound(ms, t'.paths, FramesOf(w'), t'.owners);
  }

  lemma NextBound(ms: seq<Mailbox>, paths: map<nat, seq<string>>, frames: seq<Frame>, owners: seq<Option<nat>>)
    requires Owners(ms, paths, frames, owners)
    ensures frames[|frames| - 1].next <= |ms|
  {
  }

  /** A table from root-to-node name paths to mailboxes: terminates even when parent links form cycles,
      and its keys are exactly the paths of mailboxes whose parent chain reaches a root. */
  method BuildMailboxTree(ms: seq<Mailbox>) returns (results: map<seq<string>, Mailbox>)
    requires UniqueIds(ms)
    ensures forall p :: p in results <==> IsPath(ms, p)
    ensures forall p | p in results :: IsPathOf(ms, p, results[p])
    ensures |results| == |ms| <==> AllNamed(ms) && NamedApart(ms)
  {
    var parents := set m | m in ms :: m.parentId;
    var w := Walk(Frame([], None, 0), [], map[]);
    ghost var t := Trace(map[], [None]);
    StartInv(ms);
    assert FramesOf(w) == [w.current];
    while true
      invariant WalkInv(ms, w, t)
      decreases |ms| - |t.paths|, |w.stack|, |ms| - w.current.next
    {
      if w.current.next < |ms| {
        if w.current.parent == ms[w.current.next].parentId {
          w, t := VisitNext(ms, parents, w, t);
        } else {
          w := SkipNext(ms, w, t);
        }
      } else if w.stack != [] {
        w, t := Resume(ms, w, t);
      } else {
        Complete(ms, t.paths, FramesOf(w), t.owners, w.results);
        PathsOf(ms, w.results);
        CountsAll(ms, w.results.Keys);
        return w.results;
      }
    }
  }

  lemma PathsOf(ms: seq<Mailbox>, results: map<seq<string>, Mailbox>)
    requires forall p | p in results :: IsPathOf(ms, p, results[p])
    ensures forall p | p in results :: IsPath(ms, p)
  {
    forall p | p in results ensures IsPath(ms, p) {
      var i: nat :| i < |ms| && HasPath(ms, i, p) && ms[i] == results[p];
    }
  }

  lemma NotAParent(ms: seq<Mailbox>, parents: set<Option<string>>, id: string)
    requires parents == (set m | m in ms :: m.parentId) && Some(id) !in parents
    ensures forall d | 0 <= d < |ms| :: ms[d].parentId != Some(id)
  {
    assert forall d | 0 <= d < |ms| :: ms[d] in ms && ms[d].parentId in parents;
  }

  // ---- When the table has an entry for every mailbox ----

  ghost predicate Named(ms: seq<Mailbox>, i: nat) {
    exists p :: HasPath(ms, i, p)
  }

  ghost predicate AllNamed(ms: seq<Mailbox>) {
    forall i | 0 <= i < |ms| :: Named(ms, i)
  }

  ghost predicate NamedApart(ms: seq<Mailbox>) {
    forall i: nat, j: nat, p | HasPath(ms, i, p) && HasPath(ms, j, p) :: i == j
  }

  // A mailbox with that path.
  ghost function Holder(ms: seq<Mailbox>, p: seq<string>): (i: nat)
    requires IsPath(ms, p)
    ensures i < |ms| && HasPath(ms, i, p)
  {
    var i: nat :| i < |ms| && HasPath(ms, i, p);
    i
  }

  ghost function Holders(ms: seq<Mailbox>, ps: set<seq<string>>): set<nat>
    requires forall p | p in ps :: IsPath(ms, p)
  {
    set p | p in ps :: Holder(ms, p)
  }

  lemma {:induction false} HoldersCount(ms: seq<Mailbox>, ps: set<seq<string>>)
    requires UniqueIds(ms) && forall p | p in ps :: IsPath(ms, p)
    ensures |Holders(ms, ps)| == |ps|
    decreases ps
  {
    if p :| p in ps {
      var rest := ps - {p};
      HoldersCount(ms, rest);
      forall q | q in rest ensures Holder(ms, q) != Holder(ms, p) {
        if Holder(ms, q) == Holder(ms, p) {
          PathUnique(ms, Holder(ms, p), p, q);
        }
      }
      assert Holders(ms, ps) == Holders(ms, rest) + {Holder(ms, p)};
    } else {
      assert Holders(ms, ps) == {};
    }
  }

  lemma {:induction false} SameSize(a: set<nat>, b: set<nat>)
    requires a <= b && |a| == |b|
    ensures a == b
    decreases a
  {
    if x :| x in a {
      SameSize(a - {x}, b - {x});
    }
  }

  lemma CountsAll(ms: seq<Mailbox>, ps: set<seq<string>>)
    requires UniqueIds(ms) && forall p :: p in ps <==> IsPath(ms, p)
    ensures |ps| == |ms| <==> AllNamed(ms) && NamedApart(ms)
  {
    var all, held := UpTo(|ms|), Holders(ms, ps);
    HoldersCount(ms, ps);
    if |ps| == |ms| {
      SameSize(held, all);
      HeldAreNamed(ms, ps);
    }
    if AllNamed(ms) && NamedApart(ms) {
      forall i: nat | i < |ms| ensures i in held {
        assert Named(ms, i);
        var p :| HasPath(ms, i, p);
        assert IsPath(ms, p) && Holder(ms, p) == i;
      }
      assert held == all;
    }
  }

  // Every mailbox holds a path: then each has one, and no two share it.
  lemma HeldAreNamed(ms: seq<Mailbox>, ps: set<seq<string>>)
    requires UniqueIds(ms) && forall p | p in ps :: IsPath(ms, p)
    requires Holders(ms, ps) == UpTo(|ms|)
    ensures AllNamed(ms) && NamedApart(ms)
  {
    forall i | 0 <= i < |ms| ensures Named(ms, i) {
      var p := HeldPath(ms, ps, i);
    }
    forall i: nat, j: nat, p | HasPath(ms, i, p) && HasPath(ms, j, p) ensures i == j {
      var q := HeldPath(ms, ps, i);
      var r := HeldPath(ms, ps, j);
      PathUnique(ms, i, p, q);
      PathUnique(ms, j, p, r);
    }
  }

  lemma HeldPath(ms: seq<Mailbox>, ps: set<seq<string>>, i: nat) returns (p: seq<string>)
    requires (forall p | p in ps :: IsPath(ms, p)) && Holders(ms, ps) == UpTo(|ms|) && i < |ms|
    ensures p in ps && Holder(ms, p) == i
  {
    assert i in Holders(ms, ps);
    p :| p in ps && Holder(ms, p) == i;
  }

  /** A mailbox under a parent that is not listed has no path, whatever else the list holds. */
  lemma OrphanIsUnnamed(ms: seq<Mailbox>, i: nat)
    requires i < |ms| && ms[i].parentId.Some?
    requires forall j | 0 <= j < |ms| :: ms[j].id != ms[i].parentId.value
    ensures !Named(ms, i) && !AllNamed(ms)
  {
    assert forall p :: !HasPath(ms, i, p);
  }
}
