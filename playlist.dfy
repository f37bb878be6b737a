/**
 * The playlist: a singly linked chain of songs with a pointer to the first
 * (front) and the last (rear) node, used as a deque without removal at the rear.
 *
 * The abstract value is `Contents`, the file names from front to rear; the
 * ghost `Spine` lists the nodes in the same order and `Repr` is the footprint.
 */
module Playlists {
  import opened Host

  /** One node of the chain: a file name and the link to the next node. */
  class Song {
    const filename: string
    var next: Song?

    constructor (name: string)
      ensures filename == name && next == null
    {
      filename := name;
      next := null;
    }
  }

  /** What showing the playlist prints. */
  datatype Listing = EmptyPlaylist | Tracks(names: seq<string>)

  /** How playing the whole playlist ends. */
  datatype PlaybackReport =
    | NothingToPlay          // the playlist is empty; no playback is issued
    | Finished               // every song was played to its end
    | Aborted(track: string) // the service refused this song; the rest are skipped

  /** The node reached from `n` by following `next` `k` times (null once the chain ends). */
  ghost function Hop(n: Song?, k: nat): (m: Song?)
    reads *
    decreases k
  {
    if k == 0 || n == null then n else Hop(n.next, k - 1)
  }

  class Playlist {
    var front: Song?
    var rear: Song?

    ghost var Contents: seq<string>
    ghost var Spine: seq<Song>
    ghost var Repr: set<object>

    /**
     * The object invariant: the nodes of `Spine` are distinct, carry `Contents`
     * in order and are linked one to the next; the last one links to null;
     * `front` and `rear` are the first and the last node, both null when empty.
     */
    ghost predicate Valid()
      reads this, Repr
      ensures Valid() ==> this in Repr
    {
      && this in Repr
      && |Spine| == |Contents|
      && (forall i :: 0 <= i < |Spine| ==> Spine[i] in Repr && Spine[i].filename == Contents[i])
      && (forall i, j :: 0 <= i < j < |Spine| ==> Spine[i] != Spine[j])
      && (forall i :: 0 <= i < |Spine| - 1 ==> Spine[i].next == Spine[i + 1])
      && (Spine != [] ==> Spine[|Spine| - 1].next == null)
      && front == (if Spine == [] then null else Spine[0])
      && rear == (if Spine == [] then null else Spine[|Spine| - 1])
    }

    constructor ()
      ensures Valid() && fresh(Repr)
      ensures Contents == []
    {
      front, rear := null, null;
      Contents, Spine := [], [];
      Repr := {this};
    }

    /** The two end pointers agree about emptiness, and the rear node ends the chain. */
    lemma EndsAgree()
      requires Valid()
      ensures front == null <==> rear == null
      ensures front == null <==> Contents == []
      ensures rear != null ==> rear.next == null
    {
    }

    /** Following `next` from `front` spells out `Contents`, reaches `rear` last, then null. */
    lemma ChainFromFront()
      requires Valid()
      ensures forall k :: 0 <= k < |Contents| ==> Hop(front, k) != null && Hop(front, k).filename == Contents[k]
      ensures Contents != [] ==> Hop(front, |Contents| - 1) == rear
      ensures Hop(front, |Contents|) == null
    {
      forall k | 0 <= k <= |Spine|
        ensures Hop(front, k) == if k < |Spine| then Spine[k] else null
      {
        HopAlongSpine(k);
      }
    }

    lemma {:induction false} HopAlongSpine(k: nat)
      requires Valid() && k <= |Spine|
      ensures Hop(front, k) == if k < |Spine| then Spine[k] else null
      decreases k
    {
      if k > 0 {
        HopAlongSpine(k - 1);
        HopSplit(front, k - 1, 1);
        assert Hop(Spine[k - 1], 1) == Spine[k - 1].next;
      }
    }

    /** True exactly when the playlist holds no song. */
    function IsEmpty(): (empty: bool)
      reads this, Repr
      requires Valid()
      ensures empty <==> Contents == []
    {
      front == null
    }

    /** Adds a song before all others, provided its file exists. */
    method EnqueueFront(filename: string, disk: Disk) returns (added: bool)
      requires Valid()
      modifies Repr
      ensures Valid() && fresh(Repr - old(Repr))
      ensures added <==> FileExists(disk, filename)
      ensures Contents == if added then [filename] + old(Contents) else old(Contents)
      ensures added ==> front != null && fresh(front) && front.filename == filename
      ensures added && old(Contents) == [] ==> front == rear
      ensures !added ==> front == old(front) && rear == old(rear) && Repr == old(Repr)
    {
      if !FileExists(disk, filename) {
        return false;
      }
      var newSong := new Song(filename);
      if IsEmpty() {
        front, rear := newSong, newSong;
      } else {
        newSong.next := front;
        front := newSong;
      }
      Contents := [filename] + Contents;
      Spine := [newSong] + Spine;
      Repr := Repr + {newSong};
      added := true;
    }

    /** Adds a song after all others, provided its file exists. */
    method EnqueueRear(filename: string, disk: Disk) returns (added: bool)
      requires Valid()
      modifies Repr
      ensures Valid() && fresh(Repr - old(Repr))
      ensures added <==> FileExists(disk, filename)
      ensures Contents == if added then old(Contents) + [filename] else old(Contents)
      ensures added ==> rear != null && fresh(rear) && rear.filename == filename
      ensures added && old(Contents) == [] ==> front == rear
      ensures !added ==> front == old(front) && rear == old(rear) && Repr == old(Repr)
    {
      if !FileExists(disk, filename) {
        return false;
      }
      var newSong := new Song(filename);
      if IsEmpty() {
        front, rear := newSong, newSong;
      } else {
        rear.next := newSong;
        rear := newSong;
      }
      Contents := Contents + [filename];
      Spine := Spine + [newSong];
      Repr := Repr + {newSong};
      added := true;
    }

    /** Removes the front song, if there is one; the removed node leaves the footprint. */
    method DequeueFront() returns (removed: bool)
      requires Valid()
      modifies Repr
      ensures Valid() && Repr <= old(Repr)
      ensures removed <==> old(Contents) != []
      ensures Contents == if removed then old(Contents)[1..] else old(Contents)
      ensures removed ==> (rear == null <==> Contents == [])
      ensures removed ==> old(front) != null && old(front) !in Repr
      ensures !removed ==> front == old(front) && rear == old(rear) && Repr == old(Repr)
    {
      if IsEmpty() {
        return false;
      }
      var temp := front;
      front := front.next;
      if front == null {
        rear := null;
      }
      Contents, Spine := Contents[1..], Spine[1..];
      Repr := Repr - {temp};
      removed := true;
    }

    /** The destructor: removes songs from the front until none is left. */
    method Destroy()
      requires Valid()
      modifies Repr
      ensures Valid() && Repr <= old(Repr)
      ensures Contents == [] && front == null && rear == null
    {
      while !IsEmpty()
        invariant Valid() && Repr <= old(Repr)
        decreases |Contents|
      {
        var _ := DequeueFront();
      }
    }

    /** Lists the file names from front to rear, or reports that there are none. */
    method ShowPlaylist() returns (listing: Listing)
      requires Valid()
      ensures listing == if Contents == [] then EmptyPlaylist else Tracks(Contents)
    {
      if IsEmpty() {
        return EmptyPlaylist;
      }
      var shown: seq<string> := [];
      var current := front;
      ghost var i := 0;
      while current != null
        invariant 0 <= i <= |Spine|
        invariant current == if i < |Spine| then Spine[i] else null
        invariant shown == Contents[..i]
        decreases |Spine| - i
      {
        shown := shown + [current.filename];
        current := current.next;
        i := i + 1;
      }
      listing := Tracks(shown);
    }

    /**
     * Plays every song from front to rear, each to its end, and stops at the
     * first song the sound service refuses. `answers(k)` is the service's answer
     * to the k-th request of the run; `requests` are the files asked for, in order.
     */
    method PlayPlaylist(answers: nat -> bool) returns (requests: seq<string>, outcome: PlaybackReport)
      requires Valid()
      ensures requests <= Contents
      ensures forall k: nat :: k + 1 < |requests| ==> answers(k)
      ensures outcome == NothingToPlay <==> Contents == []
      ensures outcome == Finished ==>
        Contents != [] && requests == Contents && forall k: nat :: k < |Contents| ==> answers(k)
      ensures outcome.Aborted? ==>
        requests != [] && outcome.track == requests[|requests| - 1] && !answers(|requests| - 1)
    {
      if IsEmpty() {
        return [], NothingToPlay;
      }
      requests := [];
      var current := front;
      ghost var i := 0;
      while current != null
        invariant 0 <= i <= |Spine| && |requests| == i
        invariant current == if i < |Spine| then Spine[i] else null
        invariant requests == Contents[..i]
        invariant forall k: nat :: k < i ==> answers(k)
        decreases |Spine| - i
      {
        var accepted := answers(|requests|);
        requests := requests + [current.filename];
        if !accepted {
          return requests, Aborted(current.filename);
        }
        current := current.next;
        i := i + 1;
      }
      outcome := Finished;
    }
  }

  lemma {:induction false} HopSplit(n: Song?, a: nat, b: nat)
    ensures Hop(n, a + b) == Hop(Hop(n, a), b)
    decreases a
  {
    if a > 0 && n != null {
      HopSplit(n.next, a - 1, b);
    }
  }
}
