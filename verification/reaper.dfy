/**
 * One sweep of the background retention loop: snapshot the (id, image)
 * rows of expired posts, delete the expired posts, and, if anything was
 * deleted, make a best-effort deletion of each snapshotted image from the
 * blob store. The store is abstract: an ordered table of post rows and the
 * set of blob references the blob store holds. Which posts count as expired
 * is the store's decision and is passed in as a set of ids.
 */
module Reaper {
  import opened Common
  import opened Selection

  datatype PostRow = PostRow(id: nat, imageId: Option<string>)

  datatype Store = Store(posts: seq<PostRow>, blobs: set<string>)

  /** Where a sweep can fail: either store call may raise. */
  datatype Fault = NoFault | SnapshotFails | DeleteFails

  /** What one sweep did: the store after it, the blob deletions it attempted
      in order, the number of posts deleted, and whether an error was
      caught and logged. */
  datatype Report = Report(store: Store, attempts: seq<string>, deleted: nat, errorLogged: bool)

  /** The snapshot: rows of expired posts, in table order. */
  function ExpiredRows(posts: seq<PostRow>, expired: set<nat>): (r: seq<PostRow>)
    ensures forall x :: x in r <==> x in posts && x.id in expired
    ensures |r| <= |posts|
    decreases |posts|
  {
    if |posts| == 0 then []
    else (if posts[0].id in expired then [posts[0]] else []) + ExpiredRows(posts[1..], expired)
  }

  /** The rows the deletion leaves, in table order. */
  function Survivors(posts: seq<PostRow>, expired: set<nat>): (r: seq<PostRow>)
    ensures forall x :: x in r <==> x in posts && x.id !in expired
    decreases |posts|
  {
    if |posts| == 0 then []
    else (if posts[0].id in expired then [] else [posts[0]]) + Survivors(posts[1..], expired)
  }

  /** The non-empty image references of `rows`, one per row that has one,
      in row order. */
  function ImageRefs(rows: seq<PostRow>): (r: seq<string>)
    ensures forall b :: b in r <==> exists x :: x in rows && x.imageId == Some(b) && b != ""
    ensures |r| <= |rows|
    decreases |rows|
  {
    if |rows| == 0 then []
    else
      var head := if Truthy(rows[0].imageId) then [rows[0].imageId.value] else [];
      var rest := ImageRefs(rows[1..]);
      assert forall x :: x in rows <==> x == rows[0] || x in rows[1..];
      head + rest
  }

  /** One sweep. The snapshot and the delete are two store calls, and each
      decides for itself which posts are expired: `snapExpired` is the
      snapshot's decision, `delExpired` the delete's. The image loop runs
      only when the delete reports a non-zero count. A failing store call is
      caught and logged and leaves the store as it was; a failing blob
      deletion is swallowed and the remaining deletions still run. */
  function Sweep(st: Store, snapExpired: set<nat>, delExpired: set<nat>, fault: Fault, failing: set<string>): (r: Report)
    ensures fault != NoFault ==> r == Report(st, [], 0, true)
    ensures fault == NoFault ==>
              && !r.errorLogged
              && r.store.posts == Survivors(st.posts, delExpired)
              && r.deleted == |ExpiredRows(st.posts, delExpired)|
              && r.attempts == (if r.deleted == 0 then [] else ImageRefs(ExpiredRows(st.posts, snapExpired)))
              && r.store.blobs == st.blobs - (set b | b in r.attempts && b !in failing)
  {
    match fault
    case SnapshotFails => Report(st, [], 0, true)
    case DeleteFails => Report(st, [], 0, true)   // the snapshot was taken, then the delete raised
    case NoFault =>
      var snapshot := ExpiredRows(st.posts, snapExpired);
      var deleted := |ExpiredRows(st.posts, delExpired)|;
      var posts' := Survivors(st.posts, delExpired);
      if deleted == 0 then Report(Store(posts', st.blobs), [], 0, false)
      else
        var attempts := ImageRefs(snapshot);
        var removed := set b | b in attempts && b !in failing;
        Report(Store(posts', st.blobs - removed), attempts, deleted, false)
  }

  /** The sweep with one expiry decision for both store calls, so that the
      delete removes exactly the snapshotted posts: an image deletion is
      attempted exactly for the images of the deleted posts. */
  function SnapshotSweep(st: Store, expired: set<nat>, fault: Fault, failing: set<string>): (r: Report)
    ensures fault != NoFault ==> r == Report(st, [], 0, true)
    ensures fault == NoFault ==>
              && !r.errorLogged
              && (forall x :: x in r.store.posts <==> x in st.posts && x.id !in expired)
              && (forall b :: b in r.attempts <==>
                    exists x :: x in st.posts && x !in r.store.posts && x.imageId == Some(b) && b != "")
  {
    var r := Sweep(st, expired, expired, fault, failing);
    assert fault == NoFault ==>
             forall b :: b in r.attempts <==>
               exists x :: x in st.posts && x !in r.store.posts && x.imageId == Some(b) && b != "" by {
      if fault == NoFault {
        forall b ensures b in r.attempts <==>
                         exists x :: x in st.posts && x !in r.store.posts && x.imageId == Some(b) && b != ""
        {
          if exists x :: x in st.posts && x !in r.store.posts && x.imageId == Some(b) && b != "" {
            var x :| x in st.posts && x !in r.store.posts && x.imageId == Some(b) && b != "";
            assert x in ExpiredRows(st.posts, expired);
          }
        }
      }
    }
    r
  }

  /* ---------------------------------------------------------------------
   * Properties
   * ------------------------------------------------------------------- */

  /** The sweep partitions the table: the expired rows are gone, every other
      row is kept, and together they are the table before the sweep. */
  lemma {:induction false} PartitionRows(posts: seq<PostRow>, expired: set<nat>)
    ensures multiset(Survivors(posts, expired)) + multiset(ExpiredRows(posts, expired)) == multiset(posts)
    decreases |posts|
  {
    if |posts| > 0 {
      var x, rest := posts[0], posts[1..];
      PartitionRows(rest, expired);
      var kept := if x.id in expired then [] else [x];
      var gone := if x.id in expired then [x] else [];
      assert Survivors(posts, expired) == kept + Survivors(rest, expired);
      assert ExpiredRows(posts, expired) == gone + ExpiredRows(rest, expired);
      assert multiset(kept) + multiset(gone) == multiset{x};
      assert posts == [x] + rest;
    }
  }

  /** When expiry only grows between the two store calls, every snapshot
      row is deleted and, if it had an image, has that image's deletion
      attempted, whether or not the deletion succeeds. */
  lemma EveryDeletedImageAttempted(st: Store, snapExpired: set<nat>, delExpired: set<nat>,
                                   failing: set<string>, x: PostRow)
    requires snapExpired <= delExpired
    requires x in st.posts && x.id in snapExpired && Truthy(x.imageId)
    ensures x !in Sweep(st, snapExpired, delExpired, NoFault, failing).store.posts
    ensures x.imageId.value in Sweep(st, snapExpired, delExpired, NoFault, failing).attempts
  {
    assert x in ExpiredRows(st.posts, delExpired);
    assert x in ExpiredRows(st.posts, snapExpired);
  }

  /** With one image per post, the image of a post outside the snapshot is
      not among the snapshot's images. */
  lemma ImageOutsideSnapshot(posts: seq<PostRow>, snapExpired: set<nat>, x: PostRow)
    requires UniqueImages(posts)
    requires x in posts && x.id !in snapExpired && Truthy(x.imageId)
    ensures x.imageId.value !in ImageRefs(ExpiredRows(posts, snapExpired))
  {
    forall y | y in ExpiredRows(posts, snapExpired) ensures y.imageId != x.imageId {
      var i :| 0 <= i < |posts| && posts[i] == x;
      var j :| 0 <= j < |posts| && posts[j] == y;
      assert i != j by { assert y.id in snapExpired; }
    }
  }

  /** A post that expires between the snapshot and the delete is deleted
      while its image is never attempted, so its blob stays behind. */
  lemma LateExpiryOrphansImage(st: Store, snapExpired: set<nat>, delExpired: set<nat>,
                               failing: set<string>, x: PostRow)
    requires UniqueImages(st.posts)
    requires x in st.posts && x.id in delExpired && x.id !in snapExpired && Truthy(x.imageId)
    ensures var r := Sweep(st, snapExpired, delExpired, NoFault, failing);
            && x !in r.store.posts
            && x.imageId.value !in r.attempts
            && (x.imageId.value in st.blobs ==> x.imageId.value in r.store.blobs)
  {
    ImageOutsideSnapshot(st.posts, snapExpired, x);
  }

  /** The smallest case: one post with an image, not yet expired at the
      snapshot and expired at the delete. */
  lemma LateExpiryExample()
    ensures Sweep(Store([PostRow(7, Some("img"))], {"img"}), {}, {7}, NoFault, {})
            == Report(Store([], {"img"}), [], 1, false)
  {
    var posts := [PostRow(7, Some("img"))];
    assert ExpiredRows(posts, {}) == [];
    assert ExpiredRows(posts, {7}) == posts;
    assert Survivors(posts, {7}) == [];
  }

  /** The attempts do not depend on which deletions fail: a failure does not
      stop the remaining ones. A failed deletion leaves its blob in place. */
  lemma FailuresDoNotStopAttempts(st: Store, snapExpired: set<nat>, delExpired: set<nat>,
                                  failing: set<string>, failing': set<string>)
    ensures Sweep(st, snapExpired, delExpired, NoFault, failing).attempts
            == Sweep(st, snapExpired, delExpired, NoFault, failing').attempts
    ensures forall b :: b in failing && b in st.blobs ==>
              b in Sweep(st, snapExpired, delExpired, NoFault, failing).store.blobs
  {
  }

  /** Nothing is attempted when the delete removes nothing, whatever the
      snapshot saw. */
  lemma NoDeletionNoAttempts(st: Store, snapExpired: set<nat>, delExpired: set<nat>, failing: set<string>)
    requires forall x :: x in st.posts ==> x.id !in delExpired
    ensures Sweep(st, snapExpired, delExpired, NoFault, failing) == Report(st, [], 0, false)
  {
    var e := ExpiredRows(st.posts, delExpired);
    if |e| > 0 {
      assert e[0] in e;
    }
    SurvivorsAll(st.posts, delExpired);
  }

  lemma {:induction false} SurvivorsAll(posts: seq<PostRow>, expired: set<nat>)
    requires forall x :: x in posts ==> x.id !in expired
    ensures Survivors(posts, expired) == posts
    decreases |posts|
  {
    if |posts| > 0 {
      SurvivorsAll(posts[1..], expired);
    }
  }

  /** Image references are unique per row (each upload gets its own). */
  predicate UniqueImages(posts: seq<PostRow>)
  {
    forall i, j :: 0 <= i < j < |posts| && posts[i].imageId.Some? ==> posts[i].imageId != posts[j].imageId
  }

  /** With unique image references, and expiry only growing between the two
      calls, no surviving post loses its image. */
  lemma SurvivorsKeepImages(st: Store, snapExpired: set<nat>, delExpired: set<nat>, failing: set<string>)
    requires UniqueImages(st.posts) && snapExpired <= delExpired
    ensures var r := Sweep(st, snapExpired, delExpired, NoFault, failing);
            forall x :: x in r.store.posts && Truthy(x.imageId) ==>
              (x.imageId.value in r.store.blobs <==> x.imageId.value in st.blobs)
  {
    var r := Sweep(st, snapExpired, delExpired, NoFault, failing);
    forall x | x in r.store.posts && Truthy(x.imageId)
      ensures x.imageId.value in r.store.blobs <==> x.imageId.value in st.blobs
    {
      assert x in st.posts && x.id !in delExpired;
      ImageOutsideSnapshot(st.posts, snapExpired, x);
    }
  }

  /** Dropping rows keeps image references unique. */
  lemma {:induction false} ExpiredRowsUnique(posts: seq<PostRow>, expired: set<nat>)
    requires UniqueImages(posts)
    ensures UniqueImages(ExpiredRows(posts, expired))
    decreases |posts|
  {
    if |posts| > 0 {
      var rest := ExpiredRows(posts[1..], expired);
      assert UniqueImages(posts[1..]) by {
        forall i, j | 0 <= i < j < |posts[1..]| && posts[1..][i].imageId.Some?
          ensures posts[1..][i].imageId != posts[1..][j].imageId
        {
          assert posts[1..][i] == posts[i + 1] && posts[1..][j] == posts[j + 1];
        }
      }
      ExpiredRowsUnique(posts[1..], expired);
      if posts[0].id in expired {
        var r := [posts[0]] + rest;
        forall i, j | 0 <= i < j < |r| && r[i].imageId.Some? ensures r[i].imageId != r[j].imageId {
          if i == 0 {
            assert r[j] in posts[1..];
            var k :| 0 <= k < |posts[1..]| && posts[1..][k] == r[j];
            assert posts[k + 1] == r[j];
          } else {
            assert r[i] == rest[i - 1] && r[j] == rest[j - 1];
          }
        }
      }
    }
  }

  /** Rows with unique image references yield each reference once. */
  lemma {:induction false} ImageRefsOnce(rows: seq<PostRow>)
    requires UniqueImages(rows)
    ensures NoDup(ImageRefs(rows))
    decreases |rows|
  {
    if |rows| > 0 {
      assert UniqueImages(rows[1..]) by {
        forall i, j | 0 <= i < j < |rows[1..]| && rows[1..][i].imageId.Some?
          ensures rows[1..][i].imageId != rows[1..][j].imageId
        {
          assert rows[1..][i] == rows[i + 1] && rows[1..][j] == rows[j + 1];
        }
      }
      ImageRefsOnce(rows[1..]);
      var rest := ImageRefs(rows[1..]);
      if Truthy(rows[0].imageId) {
        var h := rows[0].imageId.value;
        forall k | 0 <= k < |rows[1..]| ensures rows[1..][k].imageId != Some(h) {
          assert rows[1..][k] == rows[k + 1];
        }
        var r := [h] + rest;
        forall i, j | 0 <= i < j < |r| ensures r[i] != r[j] {
          if i == 0 {
            assert r[j] in rest;
          } else {
            assert r[i] == rest[i - 1] && r[j] == rest[j - 1];
          }
        }
      }
    }
  }

  /** With unique image references every deletion is attempted at most once. */
  lemma AttemptsOncePerImage(st: Store, snapExpired: set<nat>, delExpired: set<nat>, failing: set<string>)
    requires UniqueImages(st.posts)
    ensures NoDup(Sweep(st, snapExpired, delExpired, NoFault, failing).attempts)
  {
    ExpiredRowsUnique(st.posts, snapExpired);
    ImageRefsOnce(ExpiredRows(st.posts, snapExpired));
  }

  /** A second sweep whose delete makes the same decision finds nothing to
      do, whatever its snapshot sees. */
  lemma SweepIdempotent(st: Store, snapExpired: set<nat>, delExpired: set<nat>,
                        snapExpired': set<nat>, failing: set<string>)
    ensures var once := Sweep(st, snapExpired, delExpired, NoFault, failing).store;
            Sweep(once, snapExpired', delExpired, NoFault, failing) == Report(once, [], 0, false)
  {
    var once := Sweep(st, snapExpired, delExpired, NoFault, failing).store;
    NoDeletionNoAttempts(once, snapExpired', delExpired, failing);
  }

  /* ---------------------------------------------------------------------
   * The loop
   * ------------------------------------------------------------------- */

  /** The inputs of one sweep: the expiry decision, any store fault, and the
      blob deletions that will fail. */
  datatype SweepInput = SweepInput(expired: set<nat>, fault: Fault, failing: set<string>)

  /** Consecutive sweeps, one per period: every input gets its sweep,
      whatever happened in the sweeps before. */
  function RunSweeps(st: Store, inputs: seq<SweepInput>): (r: (Store, seq<Report>))
    ensures |r.1| == |inputs|
    decreases |inputs|
  {
    if |inputs| == 0 then (st, [])
    else
      var i := inputs[0];
      var rep := SnapshotSweep(st, i.expired, i.fault, i.failing);
      var (final, reps) := RunSweeps(rep.store, inputs[1..]);
      (final, [rep] + reps)
  }

  /** A failing sweep is contained: it is logged, changes nothing, and the
      loop carries on exactly as if that period had been skipped. */
  lemma {:induction false} FailedSweepIsContained(st: Store, bad: SweepInput, rest: seq<SweepInput>)
    requires bad.fault != NoFault
    ensures RunSweeps(st, [bad] + rest).1[0].errorLogged
    ensures RunSweeps(st, [bad] + rest).0 == RunSweeps(st, rest).0
    ensures RunSweeps(st, [bad] + rest).1[1..] == RunSweeps(st, rest).1
  {
    assert ([bad] + rest)[1..] == rest;
  }
}
