// delete_abandoned and delete_room, which rooms-admin.py and
// redact-and-purge.py each carry a copy of: list every room and delete,
// with purge, the ones that have no joined member.

module Reaper {
  import opened Wire

  /** One room of the admin API's room listing, with the fields the scripts read. */
  datatype ListedRoom = ListedRoom(roomId: string, joinedMembers: int)

  /** The room ids of a listing, in listing order. */
  function RoomIds(listing: seq<ListedRoom>): (ids: seq<string>)
    ensures |ids| == |listing|
    ensures forall k :: 0 <= k < |listing| ==> ids[k] == listing[k].roomId
  {
    seq(|listing|, k requires 0 <= k < |listing| => listing[k].roomId)
  }

  /** No two entries of the listing name the same room. */
  predicate UniqueRooms(listing: seq<ListedRoom>)
  {
    forall i, j :: 0 <= i < j < |listing| ==> listing[i].roomId != listing[j].roomId
  }

  predicate Abandoned(room: ListedRoom)
  {
    room.joinedMembers == 0
  }

  /** The delete requests the sweep sends for a listing. */
  function Deletes(listing: seq<ListedRoom>): seq<Request>
  {
    if listing == [] then []
    else
      var last := listing[|listing| - 1];
      Deletes(listing[..|listing| - 1]) + (if Abandoned(last) then [DeleteRoom(last.roomId)] else [])
  }

  /** Every request of the sweep deletes a listed room that has no joined member. */
  lemma {:induction false} DeletesOnlyAbandoned(listing: seq<ListedRoom>)
    ensures forall c :: c in Deletes(listing) ==>
      c.DeleteRoom? && exists j :: 0 <= j < |listing| && listing[j].roomId == c.room && Abandoned(listing[j])
  {
    if listing != [] {
      var init := listing[..|listing| - 1];
      DeletesOnlyAbandoned(init);
      forall c | c in Deletes(listing)
        ensures c.DeleteRoom? && exists j :: 0 <= j < |listing| && listing[j].roomId == c.room && Abandoned(listing[j])
      {
        if c in Deletes(init) {
          var j :| 0 <= j < |init| && init[j].roomId == c.room && Abandoned(init[j]);
          assert listing[j] == init[j];
        } else {
          assert listing[|listing| - 1].roomId == c.room;
        }
      }
    }
  }

  /**
   * In a listing that names each room once, the sweep deletes each room
   * with zero joined members exactly once and every other room never.
   */
  lemma {:induction false} DeletesOncePerAbandoned(listing: seq<ListedRoom>, room: string)
    requires UniqueRooms(listing)
    ensures Count(Deletes(listing), DeleteRoom(room))
         == if exists j :: 0 <= j < |listing| && listing[j].roomId == room && Abandoned(listing[j]) then 1 else 0
  {
    if listing != [] {
      var init := listing[..|listing| - 1];
      var last := listing[|listing| - 1];
      DeletesOncePerAbandoned(init, room);
      CountAppend(Deletes(init), if Abandoned(last) then [DeleteRoom(last.roomId)] else [], DeleteRoom(room));
      assert Count([DeleteRoom(last.roomId)], DeleteRoom(room)) == if last.roomId == room then 1 else 0 by {
        assert [DeleteRoom(last.roomId)][..0] == [];
      }
      if last.roomId == room {
        forall j | 0 <= j < |init| ensures init[j].roomId != room {
          assert init[j] == listing[j];
        }
      }
      if exists j :: 0 <= j < |listing| && listing[j].roomId == room && Abandoned(listing[j]) {
        var j :| 0 <= j < |listing| && listing[j].roomId == room && Abandoned(listing[j]);
        if j < |init| {
          assert init[j] == listing[j];
        }
      }
    }
  }

  /** The deletes follow listing order: the deletes for a prefix of the listing come first. */
  lemma {:induction false} DeletesFollowListing(listing: seq<ListedRoom>, k: nat)
    requires k <= |listing|
    ensures Deletes(listing[..k]) <= Deletes(listing)
    decreases |listing| - k
  {
    if k < |listing| {
      var init := listing[..|listing| - 1];
      assert init[..k] == listing[..k];
      DeletesFollowListing(init, k);
    } else {
      assert listing[..k] == listing;
    }
  }

  /** delete_room: one delete-with-purge request for the room. */
  function DeleteRoomRequest(roomId: string): (r: Request)
    ensures forall baseUrl, session :: Render(baseUrl, session, r).verb == POST
    ensures forall baseUrl, session :: Render(baseUrl, session, r).body == Some(Object(map["purge" := Bool(true)]))
    ensures forall baseUrl, session ::
      Render(baseUrl, session, r).url == baseUrl + "/_synapse/admin/v1/rooms/" + roomId + "/delete"
  {
    DeleteRoom(roomId)
  }

  /**
   * delete_abandoned: fetch the room listing (a fresh GET; `listing` is its
   * response) and delete every room with zero joined members.
   */
  method DeleteAbandoned(listing: seq<ListedRoom>) returns (sent: seq<Request>)
    ensures sent == [ListRooms] + Deletes(listing)
  {
    sent := [ListRooms];
    var i := 0;
    while i < |listing|
      invariant 0 <= i <= |listing|
      invariant sent == [ListRooms] + Deletes(listing[..i])
    {
      assert listing[..i + 1][..i] == listing[..i];
      var room := listing[i];
      if room.joinedMembers == 0 {
        sent := sent + [DeleteRoomRequest(room.roomId)];
      }
      i := i + 1;
    }
    assert listing[..i] == listing;
  }
}
