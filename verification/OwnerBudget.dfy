/** All streams of one owner share a byte budget (pro-stack/tcp_ofo.c). */
module OwnerBudget {
  import opened Serial
  import opened Reassembly
  import opened OfoStore
  import opened TcpOfo
  import opened TcpReceive

  function Sum(q: seq<nat>): nat {
    if q == [] then 0 else Sum(q[..|q| - 1]) + q[|q| - 1]
  }

  lemma {:induction false} SumUpdate(q: seq<nat>, i: nat, n: nat)
    requires i < |q|
    ensures Sum(q[i := n]) == Sum(q) - q[i] + n && q[i] <= Sum(q)
  {
    var k := |q| - 1;
    if i == k {
      assert q[i := n][..k] == q[..k];
    } else {
      SumUpdate(q[..k], i, n);
      assert q[i := n][..k] == q[..k][i := n];
    }
  }

  lemma {:induction false} SumAtLeast(q: seq<nat>, i: nat)
    requires i < |q|
    ensures q[i] <= Sum(q)
  {
    if i < |q| - 1 { SumAtLeast(q[..|q| - 1], i); }
  }

  lemma SumAppend(q: seq<nat>)
    ensures Sum(q + [0]) == Sum(q)
  {
    assert (q + [0])[..|q|] == q;
  }

  lemma {:induction false} SumRemove(q: seq<nat>, i: nat)
    requires i < |q|
    ensures Sum(q[..i] + q[i + 1..]) == Sum(q) - q[i]
  {
    var k := |q| - 1;
    if i == k {
      assert q[..i] + q[i + 1..] == q[..k];
    } else {
      SumRemove(q[..k], i);
      assert (q[..i] + q[i + 1..])[..k - 1] == q[..k][..i] + q[..k][i + 1..];
    }
  }

  ghost function Footprint(r: Receiver): set<object>
    reads r.ofo.store, r.ofo.store.index
  {
    {r, r.ofo} + r.ofo.store.Repr()
  }

  twostate predicate Kept(r: Receiver)
    reads *
  {
    unchanged(old(Footprint(r)))
  }

  lemma ReceiverBounds(r: Receiver, lo: int)
    requires r.Ready(lo)
    ensures r.ofo.bytes <= r.ofo.owner.bytes <= OWNER_MAX_BYTES && r.ofo.count <= r.ofo.owner.segments
  {
  }

  class Streams {
    const owner: Owner
    var streams: seq<Receiver>
    ghost var bytes: seq<nat>
    ghost var segments: seq<nat>
    ghost var floors: seq<int>  // no stream holds anything below

    /** Every stream is sound, none shares storage with another, and the owner's
        gauges are the sums over its streams, within the budget. */
    ghost predicate Valid()
      reads *
    {
      && |bytes| == |segments| == |floors| == |streams|
      && owner.bytes == Sum(bytes) <= OWNER_MAX_BYTES && owner.segments == Sum(segments)
      && (forall i :: 0 <= i < |streams| ==> Tracks(i))
      && (forall i, j :: 0 <= i < j < |streams| ==> Footprint(streams[i]) !! Footprint(streams[j]))
    }

    ghost predicate Tracks(i: nat)
      requires i < |streams| == |bytes| == |segments| == |floors|
      reads *
    {
      var r := streams[i];
      && r.ofo.owner == owner && r.Ready(floors[i]) && bytes[i] == r.ofo.bytes && segments[i] == r.ofo.count
      && {this, owner} !! Footprint(r)
    }

    constructor (owner: Owner)
      requires owner.bytes == 0 && owner.segments == 0
      ensures Valid() && streams == [] && this.owner == owner
    {
      this.owner, streams, bytes, segments, floors := owner, [], [], [], [];
    }

    /** A stream that nothing touched stays sound while the owner's gauges cover it. */
    twostate lemma Untouched(j: nat)
      requires
        && j < |streams| == |floors| && streams == old(streams) && |floors| == |old(floors)|
        && floors[j] == old(floors)[j]
      requires old(streams[j].Ready(floors[j])) && Kept(streams[j])
      requires
        var q := streams[j].ofo;
        q.bytes <= q.owner.bytes <= OWNER_MAX_BYTES && q.count <= q.owner.segments
      ensures streams[j].Ready(floors[j]) && Footprint(streams[j]) == old(Footprint(streams[j]))
    {
      hide AllSolid, Within, TotalBytes, Flat;
    }

    twostate lemma OtherTracks(j: nat)
      requires old(Valid()) && j < |streams| && streams == old(streams)
      requires
        && |bytes| == |segments| == |floors| == |streams| && bytes[j] == old(bytes)[j]
        && segments[j] == old(segments)[j]
      requires floors[j] == old(floors)[j]
      requires
        owner.bytes == Sum(bytes) && Sum(bytes) <= OWNER_MAX_BYTES && owner.segments == Sum(segments) &&
          Kept(streams[j])
      ensures Tracks(j) && Footprint(streams[j]) == old(Footprint(streams[j]))
    {
      hide Receiver.Valid, Receiver.Ready, Sum;
      assert old(Tracks(j));
      SumAtLeast(bytes, j);
      SumAtLeast(segments, j);
      Untouched(j);
    }

    /** After stream `i` moved, the gauges follow. */
    twostate lemma Moved(i: nat)
      requires old(Valid()) && i < |streams| && streams == old(streams)
      requires bytes == old(bytes)[i := streams[i].ofo.bytes] && segments == old(segments)[i := streams[i].ofo.count]
      requires |floors| == |old(floors)| && floors == old(floors)[i := floors[i]]
      requires streams[i].Ready(floors[i]) && streams[i].ofo.SameOthers() && {this, owner} !! Footprint(streams[i])
      requires fresh(Footprint(streams[i]) - old(Footprint(streams[i])))
      requires forall j :: 0 <= j < |streams| && j != i ==> Kept(streams[j])
      ensures Valid()
    {
      hide Receiver.Valid, Receiver.Ready, Sum;
      SumUpdate(old(bytes), i, streams[i].ofo.bytes);
      SumUpdate(old(segments), i, streams[i].ofo.count);
      assert old(Tracks(i));
      ReceiverBounds(streams[i], floors[i]);
      forall j | 0 <= j < |streams| && j != i
        ensures Tracks(j) && Footprint(streams[j]) == old(Footprint(streams[j]))
      {
        OtherTracks(j);
      }
      assert Tracks(i);
    }

    lemma Others(i: nat)
      requires Valid() && i < |streams|
      ensures streams[i].ofo.owner == owner && {this, owner} !! Footprint(streams[i])
      ensures |bytes| == |segments| == |floors| == |streams|
      ensures forall j :: 0 <= j < |streams| && j != i ==>
                Footprint(streams[j]) !! Footprint(streams[i]) + {this, owner}
    {
      hide Receiver.Ready, Sum, Footprint;
      assert Tracks(i);
      forall j | 0 <= j < |streams| && j != i
        ensures Footprint(streams[j]) !! Footprint(streams[i]) + {this, owner}
      {
        assert Tracks(j);
      }
    }

    /** A segment arrives for stream `i`, which holds nothing below `lo`. */
    method Receive(i: nat, sq: u32, payload: seq<byte>, fin: bool, ghost s: Piece, ghost lo: int)
      returns (ghost whole: bool)
      requires Valid() && i < |streams| && streams[i].ofo.Offered(sq, payload, fin, s)
      requires streams[i].Ready(lo) && streams[i].ofo.Near(lo)
      modifies this`bytes, this`segments, this`floors, owner, Footprint(streams[i])
      ensures Valid() && streams == old(streams) && floors == old(floors)[i := lo]
      ensures old(streams[i].Valid()) && !old(streams[i].Strands(s)) ==> streams[i].Valid()
      ensures
        var r := streams[i];
        !old(r.eof) && Intersects(old(r.ofo.nxt), old(r.ofo.Window()), s) ==>
          && old(r.delivered) <= r.delivered
          && (whole && !r.eof ==> r.ofo.store.held == [] || r.ofo.store.held[0].pos > r.ofo.nxt)
          && Got(old(r.ofo.store.held), old(r.ofo.nxt), r.ofo.store.held, r.ofo.nxt, r.eof,
                 r.delivered[|old(r.delivered)|..], Windowed(s, old(r.ofo.nxt), old(r.ofo.nxt + r.ofo.Window())), whole)
    {
      hide Receiver.Valid, Receiver.Ready, Sum, Got, Received, Windowed, Intersects, Receiver.Marked, Preserved;
      Others(i);
      hide OfoQueue.Window, Receiver.Strands, OfoQueue.Near, OfoQueue.Offered, Valid, Footprint;
      var r := streams[i];
      whole := r.Receive(sq, payload, fin, s, lo);
      bytes, segments, floors := bytes[i := r.ofo.bytes], segments[i := r.ofo.count], floors[i := lo];
      Moved(i);
    }

    /** The application reads from stream `i`. */
    method Recv(i: nat, len: nat, failed: bool, closed: bool, ghost lo: int) returns (out: ReadResult)
      requires Valid() && i < |streams| && streams[i].Ready(lo) && streams[i].ofo.Near(lo)
      modifies this`bytes, this`segments, this`floors, owner, Footprint(streams[i])
      ensures Valid() && streams == old(streams) && floors == old(floors)[i := lo]
      ensures old(streams[i].Valid()) ==> streams[i].Valid()
      ensures
        var r := streams[i];
        && (out.Bytes? ==> r.read == old(r.read) + out.data) && (!out.Bytes? ==> r.read == old(r.read))
        && (len > 0 && !failed && old(r.read < r.delivered) ==> out.Bytes? && out.data != [])
    {
      hide Receiver.Valid, Receiver.Ready, Sum, Received, Preserved;
      assert Tracks(i);
      var r := streams[i];
      out := r.Recv(len, failed, closed, lo);
      floors := floors[i := lo];
      bytes := bytes[i := r.ofo.bytes];
      segments := segments[i := r.ofo.count];
      Moved(i);
    }

    /** A connection goes away: what it held leaves the owner's gauges with it. */
    method Close(i: nat)
      requires Valid() && i < |streams|
      modifies this, owner, Footprint(streams[i])
      ensures Valid() && streams == old(streams)[..i] + old(streams)[i + 1..]
      ensures owner.bytes == old(owner.bytes) - old(streams[i].ofo.bytes)
      ensures owner.segments == old(owner.segments) - old(streams[i].ofo.count)
    {
      hide Receiver.Valid, Receiver.Ready, Sum;
      assert Tracks(i);
      streams[i].Discard(floors[i]);
      SumUpdate(bytes, i, 0);
      SumUpdate(segments, i, 0);
      bytes, segments := bytes[i := 0], segments[i := 0];
      forall j | 0 <= j < |streams| && j != i
        ensures Tracks(j) && Footprint(streams[j]) == old(Footprint(streams[j]))
      {
        assert old(Tracks(j));
        OtherTracks(j);
      }
      Leave(i);
    }

    /** A stream that holds nothing leaves the owner. */
    method Leave(i: nat)
      requires i < |streams| == |bytes| == |segments| == |floors| && bytes[i] == segments[i] == 0
      requires owner.bytes == Sum(bytes) <= OWNER_MAX_BYTES && owner.segments == Sum(segments)
      requires forall j :: 0 <= j < |streams| && j != i ==> Tracks(j)
      requires forall j, k :: 0 <= j < k < |streams| && j != i && k != i ==>
                 Footprint(streams[j]) !! Footprint(streams[k])
      modifies this
      ensures Valid() && streams == old(streams)[..i] + old(streams)[i + 1..]
    {
      hide Receiver.Valid, Receiver.Ready, Sum;
      SumRemove(bytes, i);
      SumRemove(segments, i);
      streams := streams[..i] + streams[i + 1..];
      bytes, segments := bytes[..i] + bytes[i + 1..], segments[..i] + segments[i + 1..];
      floors := floors[..i] + floors[i + 1..];
      forall j | 0 <= j < |streams|
        ensures Tracks(j) && streams[j] == old(streams)[if j < i then j else j + 1]
      {
        assert old(Tracks(if j < i then j else j + 1));
      }
    }

    /** A connection is set up. */
    method Open(irs: u32, size: nat, permit: bool)
      requires Valid() && size <= MAX_WINDOW
      modifies this
      ensures Valid() && |streams| == |old(streams)| + 1 && streams[..|old(streams)|] == old(streams)
      ensures streams[|old(streams)|].permitted == permit
    {
      hide Receiver.Valid, Receiver.Ready, Sum;
      var r := new Receiver(irs, size, permit, owner);
      Untracked();
      r.ValidReady();
      Join(r);
    }

    /** Allocation leaves every stream as it was. */
    twostate lemma Untracked()
      requires
        && old(Valid()) && unchanged(this) && unchanged(owner) && forall i :: 0 <= i < |streams| ==> Kept(streams[i])
      ensures Valid()
    {
      forall i | 0 <= i < |streams|
        ensures Tracks(i) && Footprint(streams[i]) == old(Footprint(streams[i]))
      {
        SumAtLeast(bytes, i);
        SumAtLeast(segments, i);
        OtherTracks(i);
      }
    }

    /** An empty stream joins the owner. */
    method Join(r: Receiver)
      requires Valid() && r.Ready(r.ofo.nxt) && r.ofo.owner == owner && r.ofo.bytes == 0 && r.ofo.count == 0
      requires {this, owner} !! Footprint(r) && forall i :: 0 <= i < |streams| ==> Footprint(streams[i]) !! Footprint(r)
      modifies this
      ensures Valid() && streams == old(streams) + [r]
    {
      hide Receiver.Valid, Receiver.Ready, Sum;
      ghost var n := |streams|;
      SumAppend(bytes);
      SumAppend(segments);
      streams, bytes, segments, floors := streams + [r], bytes + [0], segments + [0], floors + [r.ofo.nxt];
      forall i | 0 <= i < n
        ensures Tracks(i) && Footprint(streams[i]) == old(Footprint(streams[i])) && streams[i] == old(streams)[i]
      {
        assert old(Tracks(i));
      }
    }
  }
}
