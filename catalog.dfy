/**
 * The room catalogue (backend/api/get_rooms.php): every room by ascending
 * price, with its comma-separated feature text turned into a list. The
 * feature conversion is shared with the availability endpoint.
 */
module Catalog {
  import opened Types
  import opened Text
  import opened Sorting

  /** `!empty($row['features']) ? explode(',', $row['features']) : array()` */
  function FeatureList(features: string): (parts: seq<string>)
    ensures EmptyText(features) ==> parts == []
    ensures !EmptyText(features) ==> |parts| == CountChar(features, ',') + 1
    ensures !EmptyText(features) ==> Join(parts, ',') == features
    ensures forall p, k :: p in parts && 0 <= k < |p| ==> p[k] != ','
  {
    if EmptyText(features) then []
    else
      JoinSplit(features, ',');
      SplitCount(features, ',');
      Split(features, ',')
  }

  /**
   * The pieces are kept as they are, not trimmed: "WiFi, Pool" gives
   * "WiFi" and " Pool".
   */
  lemma FeaturesKeepBlanks(p: string, q: string)
    requires forall k :: 0 <= k < |p| ==> p[k] != ','
    requires forall k :: 0 <= k < |q| ==> q[k] != ','
    ensures FeatureList(p + [','] + q) == [p, q]
  {
    SplitPrefix(p, q, ',');
    SplitOfSepFree(q, ',');
    assert !EmptyText(p + [','] + q) by {
      assert (p + [','] + q)[|p|] == ',';
    }
  }

  /** A room as `get_rooms.php` returns it. */
  datatype CatalogRoom = CatalogRoom(
    id: int,
    name: string,
    roomType: string,
    price: int,
    description: string,
    imageUrl: string,
    totalRooms: int,
    maxGuests: int,
    features: seq<string>,
    createdAt: Timestamp)

  /** The `$room_data` array built for one fetched row. */
  function CatalogEntry(room: Room): CatalogRoom {
    CatalogRoom(room.id, room.name, room.roomType, room.price, room.description, room.imageUrl,
                room.totalRooms, room.maxGuests, FeatureList(room.features), room.createdAt)
  }

  function PriceKey(room: Room): int {
    room.price
  }

  /** `SELECT .. FROM rooms ORDER BY price_per_night ASC` */
  function CatalogQuery(rooms: seq<Room>): seq<Room> {
    SortBy(rooms, PriceKey)
  }

  /** Every room appears exactly once, cheapest first. */
  lemma CatalogQueryIsOrderedPermutation(rooms: seq<Room>)
    ensures multiset(CatalogQuery(rooms)) == multiset(rooms)
    ensures forall i, j :: 0 <= i < j < |rooms| ==> CatalogQuery(rooms)[i].price <= CatalogQuery(rooms)[j].price
  {
    SortByPermutation(rooms, PriceKey);
    SortBySorted(rooms, PriceKey);
  }

  /**
   * A response holding one entry per row of the catalogue query, in
   * order, lists every room, cheapest first.
   */
  lemma CatalogResponse(rooms: seq<Room>, data: seq<CatalogRoom>)
    requires |data| == |rooms|
    requires forall k :: 0 <= k < |rooms| ==> data[k] == CatalogEntry(CatalogQuery(rooms)[k])
    ensures forall i, j :: 0 <= i < j < |rooms| ==> data[i].price <= data[j].price
    ensures forall room :: room in rooms ==> CatalogEntry(room) in data
  {
    var rows := CatalogQuery(rooms);
    CatalogQueryIsOrderedPermutation(rooms);
    forall room | room in rooms ensures CatalogEntry(room) in data {
      SortByMembers(rooms, PriceKey, room);
      var k :| 0 <= k < |rows| && rows[k] == room;
      assert data[k] == CatalogEntry(room);
    }
  }
}
