/** The read-only reporting queries (GET /api/chef/restaurants,
    /api/pantry/donations, /api/ngo/pantries, /api/logistics/overview and
    /api/pantries), each as a function from the tables to the rows the
    query returns. A table scan visits rows in primary-key order; the joins
    and aggregations follow the SQL of each query. */
module Views {
  import opened Schema
  import opened Ordering

  /** The keys among `ids` that `keep` accepts, in their original order. */
  function Select(ids: seq<int>, keep: int -> bool): (r: seq<int>)
    requires StrictlyIncreasing(ids)
    ensures StrictlyIncreasing(r)
    ensures forall i :: 0 <= i < |r| ==> r[i] in ids && keep(r[i])
    ensures forall k :: 0 <= k < |ids| && keep(ids[k]) ==> ids[k] in r
  {
    if ids == [] then []
    else
      var rest := Select(ids[1..], keep);
      SelectStep(ids, keep, rest);
      if keep(ids[0]) then [ids[0]] + rest else rest
  }

  lemma SelectStep(ids: seq<int>, keep: int -> bool, rest: seq<int>)
    requires ids != [] && StrictlyIncreasing(ids)
    requires StrictlyIncreasing(rest)
    requires forall i :: 0 <= i < |rest| ==> rest[i] in ids[1..] && keep(rest[i])
    requires forall k :: 0 <= k < |ids[1..]| && keep(ids[1..][k]) ==> ids[1..][k] in rest
    ensures forall i :: 0 <= i < |rest| ==> rest[i] in ids
    ensures forall k :: 0 < k < |ids| && keep(ids[k]) ==> ids[k] in rest
    ensures keep(ids[0]) ==> StrictlyIncreasing([ids[0]] + rest)
  {
    forall i | 0 <= i < |rest| ensures rest[i] in ids && ids[0] < rest[i] {
      assert rest[i] in ids[1..];
      var k :| 0 <= k < |ids[1..]| && ids[1..][k] == rest[i];
      assert ids[k + 1] == rest[i];
    }
    forall k | 0 < k < |ids| && keep(ids[k]) ensures ids[k] in rest {
      assert ids[1..][k - 1] == ids[k];
    }
  }

  // ---------------------------------------------------------------------
  // Chef view: restaurants owned by a Head Chef, with their donation count
  // ---------------------------------------------------------------------

  datatype ChefRow = ChefRow(id: int, restaurant: string, cuisine: string, contact: string, address: string, totalDonations: nat)

  /** `Restaurant r JOIN USER u ON r.UserID = u.UserID WHERE u.Role = 'Head Chef'`
      keeps restaurant `rid`. */
  predicate OwnedByHeadChef(t: Tables, rid: int) {
    rid in t.restaurants &&
    var owner := t.restaurants[rid].userId;
    owner in t.users && t.users[owner].role == HEAD_CHEF
  }

  /** The donations whose food item comes from restaurant `rid`: the rows
      the correlated `Food_Item JOIN Donation WHERE fi.Restaurant_ID = r.ID`
      subquery counts. */
  function DonationsFrom(t: Tables, rid: int): set<int> {
    set id | id in t.donations.Keys &&
      var fid := t.donations[id].foodItemId;
      fid in t.foodItems && t.foodItems[fid].restaurantId == rid
  }

  function ChefRowOf(t: Tables, rid: int): ChefRow
    requires rid in t.restaurants
  {
    var r := t.restaurants[rid];
    ChefRow(rid, r.name, r.cuisine, r.contact, r.address, |DonationsFrom(t, rid)|)
  }

  /** The restaurants the join keeps, in primary-key order. */
  function ChefRestaurantIds(t: Tables): (ids: seq<int>)
    ensures StrictlyIncreasing(ids)
    ensures forall i :: 0 <= i < |ids| ==> OwnedByHeadChef(t, ids[i])
    ensures forall rid :: OwnedByHeadChef(t, rid) ==> rid in ids
  {
    var keys := SortedKeys(t.restaurants.Keys);
    var ids := Select(keys, rid => OwnedByHeadChef(t, rid));
    forall rid | OwnedByHeadChef(t, rid) ensures rid in ids {
      assert rid in keys;
      var k :| 0 <= k < |keys| && keys[k] == rid;
    }
    ids
  }

  function ChefRestaurants(t: Tables): (rows: seq<ChefRow>)
    ensures forall i :: 0 <= i < |rows| ==>
      OwnedByHeadChef(t, rows[i].id) && rows[i] == ChefRowOf(t, rows[i].id)
    ensures forall rid :: OwnedByHeadChef(t, rid) ==> ChefRowOf(t, rid) in rows
    ensures forall i, j :: 0 <= i < j < |rows| ==> rows[i].id < rows[j].id
  {
    var ids := ChefRestaurantIds(t);
    var rows := seq(|ids|, i requires 0 <= i < |ids| => ChefRowOf(t, ids[i]));
    ChefRowsCover(t, ids, rows);
    rows
  }

  lemma ChefRowsCover(t: Tables, ids: seq<int>, rows: seq<ChefRow>)
    requires ids == ChefRestaurantIds(t)
    requires |rows| == |ids| && forall k :: 0 <= k < |ids| ==> rows[k] == ChefRowOf(t, ids[k])
    ensures forall i :: 0 <= i < |rows| ==>
      OwnedByHeadChef(t, rows[i].id) && rows[i] == ChefRowOf(t, rows[i].id)
    ensures forall rid :: OwnedByHeadChef(t, rid) ==> ChefRowOf(t, rid) in rows
    ensures forall i, j :: 0 <= i < j < |rows| ==> rows[i].id < rows[j].id
  {
    forall i | 0 <= i < |rows| ensures OwnedByHeadChef(t, rows[i].id) && rows[i] == ChefRowOf(t, rows[i].id) {
      assert rows[i] == ChefRowOf(t, ids[i]) && OwnedByHeadChef(t, ids[i]);
    }
    forall rid | OwnedByHeadChef(t, rid) ensures ChefRowOf(t, rid) in rows {
      assert rid in ids;
      var m :| 0 <= m < |ids| && ids[m] == rid;
      assert rows[m] == ChefRowOf(t, rid);
    }
  }

  // ---------------------------------------------------------------------
  // The join shared by the pantry-manager and logistics views:
  // Donation JOIN Food_Item JOIN Restaurant JOIN Food_Pantry
  // ---------------------------------------------------------------------

  /** The inner joins keep donation `id`: its food item, that item's
      restaurant and its pantry all exist. */
  predicate Joins(t: Tables, id: int) {
    id in t.donations &&
    var d := t.donations[id];
    d.foodItemId in t.foodItems &&
    t.foodItems[d.foodItemId].restaurantId in t.restaurants &&
    d.pantryId in t.pantries
  }

  /** The donations the joins keep, in primary-key order. */
  function JoinedDonations(t: Tables): (ids: seq<int>)
    ensures StrictlyIncreasing(ids)
    ensures forall i :: 0 <= i < |ids| ==> Joins(t, ids[i])
    ensures forall id :: Joins(t, id) ==> id in ids
  {
    Select(SortedKeys(t.donations.Keys), id => Joins(t, id))
  }

  // ---------------------------------------------------------------------
  // Pantry-manager view: Pending first, then newest first
  // ---------------------------------------------------------------------

  datatype PantryDonationRow = PantryDonationRow(donationId: int, foodItem: string, source: string, date: int, quantity: int, status: string)

  function PantryDonationRowOf(t: Tables, id: int): PantryDonationRow
    requires Joins(t, id)
  {
    var d := t.donations[id];
    var f := t.foodItems[d.foodItemId];
    PantryDonationRow(id, f.name, t.restaurants[f.restaurantId].name, d.date, d.quantity, d.status)
  }

  /** `ORDER BY CASE WHEN d.Status = 'Pending' THEN 0 ELSE 1 END, d.Donation_Date DESC` */
  function PantryKey(row: PantryDonationRow): SortKey {
    SortKey(if row.status == PENDING then 0 else 1, row.date)
  }

  /** The joined rows before ordering, in scan order. */
  function PantryScan(t: Tables): (rows: seq<PantryDonationRow>)
    ensures |rows| == |JoinedDonations(t)|
    ensures forall i :: 0 <= i < |rows| ==> rows[i] == PantryDonationRowOf(t, JoinedDonations(t)[i])
  {
    var ids := JoinedDonations(t);
    seq(|ids|, i requires 0 <= i < |ids| => PantryDonationRowOf(t, ids[i]))
  }

  function PantryDonations(t: Tables): (rows: seq<PantryDonationRow>)
    ensures multiset(rows) == multiset(PantryScan(t))
    ensures forall i, j :: 0 <= i < j < |rows| && rows[j].status == PENDING ==> rows[i].status == PENDING
    ensures forall i, j :: 0 <= i < j < |rows| && (rows[i].status == PENDING <==> rows[j].status == PENDING) ==>
      rows[i].date >= rows[j].date
  {
    var rows := SortBy(PantryScan(t), PantryKey);
    PantryKeyOrder(rows);
    rows
  }

  lemma PantryKeyOrder(rows: seq<PantryDonationRow>)
    requires SortedBy(rows, PantryKey)
    ensures forall i, j :: 0 <= i < j < |rows| && rows[j].status == PENDING ==> rows[i].status == PENDING
    ensures forall i, j :: 0 <= i < j < |rows| && (rows[i].status == PENDING <==> rows[j].status == PENDING) ==>
      rows[i].date >= rows[j].date
  {
    forall i, j | 0 <= i < j < |rows|
      ensures rows[j].status == PENDING ==> rows[i].status == PENDING
      ensures (rows[i].status == PENDING <==> rows[j].status == PENDING) ==> rows[i].date >= rows[j].date
    {
      assert Before(PantryKey(rows[i]), PantryKey(rows[j]));
    }
  }

  /** Every row of the view is the row of a donation the joins keep. */
  lemma PantryRowJoins(t: Tables, i: int)
    requires 0 <= i < |PantryDonations(t)|
    ensures Joins(t, PantryDonations(t)[i].donationId)
    ensures PantryDonations(t)[i] == PantryDonationRowOf(t, PantryDonations(t)[i].donationId)
  {
    var scan, row := PantryScan(t), PantryDonations(t)[i];
    PermutedMember(PantryDonations(t), scan, i);
    var k :| 0 <= k < |scan| && scan[k] == row;
    assert scan[k] == PantryDonationRowOf(t, JoinedDonations(t)[k]);
  }

  /** Every donation the joins keep has its row in the view. */
  lemma JoinedInPantryView(t: Tables, id: int)
    requires Joins(t, id)
    ensures PantryDonationRowOf(t, id) in PantryDonations(t)
  {
    var ids, scan := JoinedDonations(t), PantryScan(t);
    assert id in ids;
    var k :| 0 <= k < |ids| && ids[k] == id;
    assert scan[k] == PantryDonationRowOf(t, id);
    PermutedMember(scan, PantryDonations(t), k);
  }

  /** Every donation the joins keep is listed exactly once, and nothing else is. */
  lemma PantryDonationsExactlyOnce(t: Tables)
    ensures forall i :: 0 <= i < |PantryDonations(t)| ==>
      Joins(t, PantryDonations(t)[i].donationId) &&
      PantryDonations(t)[i] == PantryDonationRowOf(t, PantryDonations(t)[i].donationId)
    ensures forall id :: Joins(t, id) ==> PantryDonationRowOf(t, id) in PantryDonations(t)
    ensures forall i, j :: 0 <= i < j < |PantryDonations(t)| ==>
      PantryDonations(t)[i].donationId != PantryDonations(t)[j].donationId
  {
    var rows := PantryDonations(t);
    forall i | 0 <= i < |rows|
      ensures Joins(t, rows[i].donationId) && rows[i] == PantryDonationRowOf(t, rows[i].donationId)
    {
      PantryRowJoins(t, i);
    }
    forall id | Joins(t, id) ensures PantryDonationRowOf(t, id) in rows {
      JoinedInPantryView(t, id);
    }
    PantryScanDistinct(t);
    PermutationKeepsDistinct(rows, PantryScan(t));
  }

  lemma PantryScanDistinct(t: Tables)
    ensures Distinct(PantryScan(t))
  {
    var ids, scan := JoinedDonations(t), PantryScan(t);
    forall i, j | 0 <= i < j < |scan| ensures scan[i] != scan[j] {
      assert scan[i].donationId == ids[i] < ids[j] == scan[j].donationId;
    }
  }

  // ---------------------------------------------------------------------
  // Logistics overview: newest first
  // ---------------------------------------------------------------------

  datatype LogisticsRow = LogisticsRow(
    source: string, foodItem: string, itemType: string,
    originalQuantity: int, donatedQuantity: int,
    destinationPantry: string, status: string, date: int)

  function LogisticsRowOf(t: Tables, id: int): LogisticsRow
    requires Joins(t, id)
  {
    var d := t.donations[id];
    var f := t.foodItems[d.foodItemId];
    LogisticsRow(t.restaurants[f.restaurantId].name, f.name, f.itemType, f.quantity, d.quantity,
                 t.pantries[d.pantryId].name, d.status, d.date)
  }

  /** `ORDER BY d.Donation_Date DESC` */
  function LogisticsKey(row: LogisticsRow): SortKey {
    SortKey(0, row.date)
  }

  function LogisticsScan(t: Tables): (rows: seq<LogisticsRow>)
    ensures |rows| == |JoinedDonations(t)|
    ensures forall i :: 0 <= i < |rows| ==> rows[i] == LogisticsRowOf(t, JoinedDonations(t)[i])
  {
    var ids := JoinedDonations(t);
    seq(|ids|, i requires 0 <= i < |ids| => LogisticsRowOf(t, ids[i]))
  }

  function LogisticsOverview(t: Tables): (rows: seq<LogisticsRow>)
    ensures multiset(rows) == multiset(LogisticsScan(t))
    ensures forall i, j :: 0 <= i < j < |rows| ==> rows[i].date >= rows[j].date
  {
    var rows := SortBy(LogisticsScan(t), LogisticsKey);
    forall i, j | 0 <= i < j < |rows| ensures rows[i].date >= rows[j].date {
      assert Before(LogisticsKey(rows[i]), LogisticsKey(rows[j]));
    }
    rows
  }

  /** A donation the joins keep whose row is row `i` of the overview. */
  ghost function OverviewSource(t: Tables, i: int): (id: int)
    requires 0 <= i < |LogisticsOverview(t)|
    ensures Joins(t, id) && LogisticsOverview(t)[i] == LogisticsRowOf(t, id)
  {
    var scan := LogisticsScan(t);
    PermutedMember(LogisticsOverview(t), scan, i);
    var k :| 0 <= k < |scan| && scan[k] == LogisticsOverview(t)[i];
    JoinedDonations(t)[k]
  }

  /** The overview holds one row per joined donation: as many rows as the
      joins keep, each the row of a joined donation, and every joined
      donation's row among them. */
  lemma LogisticsOverviewCoversJoin(t: Tables)
    ensures |LogisticsOverview(t)| == |JoinedDonations(t)|
    ensures forall i :: 0 <= i < |LogisticsOverview(t)| ==>
      Joins(t, OverviewSource(t, i)) && LogisticsOverview(t)[i] == LogisticsRowOf(t, OverviewSource(t, i))
    ensures forall id :: Joins(t, id) ==> LogisticsRowOf(t, id) in LogisticsOverview(t)
  {
    var rows, scan := LogisticsOverview(t), LogisticsScan(t);
    assert |rows| == |multiset(rows)| == |multiset(scan)| == |scan|;
    forall id | Joins(t, id) ensures LogisticsRowOf(t, id) in rows {
      JoinedInOverview(t, id);
    }
  }

  lemma JoinedInOverview(t: Tables, id: int)
    requires Joins(t, id)
    ensures LogisticsRowOf(t, id) in LogisticsOverview(t)
  {
    var ids, scan := JoinedDonations(t), LogisticsScan(t);
    assert id in ids;
    var k :| 0 <= k < |ids| && ids[k] == id;
    assert scan[k] == LogisticsRowOf(t, id);
    PermutedMember(scan, LogisticsOverview(t), k);
  }

  // ---------------------------------------------------------------------
  // Per-pantry counts: Food_Pantry LEFT JOIN Donation ... GROUP BY pantry
  // ---------------------------------------------------------------------

  /** A row of a pantry's group under the LEFT JOIN: a matched donation, or
      the single NULL-extended row of a pantry that nothing matched. */
  datatype JoinedDonation = Matched(donationId: int, status: string) | Unmatched

  /** The ON clause: `fp.PantryID = d.Pantry_ID`, and when `pendingOnly`
      also `d.Status = 'Pending'`. */
  predicate OnClause(d: Donation, pantryId: int, pendingOnly: bool) {
    d.pantryId == pantryId && (pendingOnly ==> d.status == PENDING)
  }

  function MatchedRows(t: Tables, pantryId: int, pendingOnly: bool, ids: seq<int>): seq<JoinedDonation>
    requires forall i :: 0 <= i < |ids| ==> ids[i] in t.donations
  {
    if ids == [] then []
    else
      var d := t.donations[ids[0]];
      var rest := MatchedRows(t, pantryId, pendingOnly, ids[1..]);
      if OnClause(d, pantryId, pendingOnly) then [Matched(ids[0], d.status)] + rest else rest
  }

  /** The group of pantry `pantryId` under the LEFT JOIN. */
  function PantryGroup(t: Tables, pantryId: int, pendingOnly: bool): seq<JoinedDonation> {
    var matched := MatchedRows(t, pantryId, pendingOnly, SortedKeys(t.donations.Keys));
    if matched == [] then [Unmatched] else matched
  }

  /** `COUNT(d.Donation_ID)`: the rows whose Donation_ID is not NULL. */
  function CountIds(rows: seq<JoinedDonation>): nat {
    if rows == [] then 0
    else (if rows[0].Matched? then 1 else 0) + CountIds(rows[1..])
  }

  /** `COUNT(CASE WHEN d.Status = status THEN 1 END)`: a NULL status matches nothing. */
  function CountStatus(rows: seq<JoinedDonation>, status: string): nat {
    if rows == [] then 0
    else (if rows[0].Matched? && rows[0].status == status then 1 else 0) + CountStatus(rows[1..], status)
  }

  /** The donations addressed to a pantry. */
  function DonationsTo(t: Tables, pantryId: int): set<int> {
    set id | id in t.donations.Keys && t.donations[id].pantryId == pantryId
  }

  /** The donations addressed to a pantry that carry a given status. */
  function DonationsWithStatus(t: Tables, pantryId: int, status: string): set<int> {
    set id | id in t.donations.Keys && t.donations[id].pantryId == pantryId && t.donations[id].status == status
  }

  datatype NgoRow = NgoRow(
    pantryName: string, address: string, contactInfo: string, hours: string, capacity: int,
    totalDonations: nat, pendingDonations: nat, completedDonations: nat)

  function NgoRowOf(t: Tables, pantryId: int): NgoRow
    requires pantryId in t.pantries
  {
    var p := t.pantries[pantryId];
    var group := PantryGroup(t, pantryId, false);
    NgoRow(p.name, p.address, p.contactInfo, p.hours, p.capacity,
           CountIds(group), CountStatus(group, PENDING), CountStatus(group, COMPLETED))
  }

  /** The pantries in primary-key order: one output row each. */
  function PantryIds(t: Tables): (ids: seq<int>)
    ensures |ids| == |t.pantries|
    ensures forall i :: 0 <= i < |ids| ==> ids[i] in t.pantries
    ensures forall p :: p in t.pantries ==> p in ids
  {
    SortedKeys(t.pantries.Keys)
  }

  function NgoPantries(t: Tables): (rows: seq<NgoRow>)
    ensures |rows| == |t.pantries|
    ensures forall i :: 0 <= i < |rows| ==> rows[i] == NgoRowOf(t, PantryIds(t)[i])
  {
    var ids := PantryIds(t);
    seq(|ids|, i requires 0 <= i < |ids| => NgoRowOf(t, ids[i]))
  }

  datatype PantryRow = PantryRow(pantryId: int, name: string, capacity: int, currentDonations: nat)

  function PantryRowOf(t: Tables, pantryId: int): PantryRow
    requires pantryId in t.pantries
  {
    var p := t.pantries[pantryId];
    PantryRow(pantryId, p.name, p.capacity, CountIds(PantryGroup(t, pantryId, true)))
  }

  function AvailablePantries(t: Tables): (rows: seq<PantryRow>)
    ensures |rows| == |t.pantries|
    ensures forall i :: 0 <= i < |rows| ==> rows[i] == PantryRowOf(t, PantryIds(t)[i])
  {
    var ids := PantryIds(t);
    seq(|ids|, i requires 0 <= i < |ids| => PantryRowOf(t, ids[i]))
  }

  // ----- what the counts mean -----

  /** A group row for this donation is counted: the ON clause accepts it,
      and it carries `status` when one is named. */
  predicate CountedBy(d: Donation, pantryId: int, pendingOnly: bool, status: Option<string>) {
    OnClause(d, pantryId, pendingOnly) && (status.Some? ==> d.status == status.value)
  }

  /** The donations a pantry's count covers. */
  ghost function Accepted(t: Tables, pantryId: int, pendingOnly: bool, status: Option<string>): set<int> {
    set id | id in t.donations && CountedBy(t.donations[id], pantryId, pendingOnly, status)
  }

  /** The donations among `ids` that a pantry's count covers. */
  ghost function Counted(t: Tables, pantryId: int, pendingOnly: bool, status: Option<string>, ids: seq<int>): set<int>
    requires forall i :: 0 <= i < |ids| ==> ids[i] in t.donations
  {
    if ids == [] then {}
    else
      var here := CountedBy(t.donations[ids[0]], pantryId, pendingOnly, status);
      (if here then {ids[0]} else {}) + Counted(t, pantryId, pendingOnly, status, ids[1..])
  }

  lemma {:induction false} CountedMembers(t: Tables, pantryId: int, pendingOnly: bool, status: Option<string>, ids: seq<int>, low: int)
    requires forall i :: 0 <= i < |ids| ==> ids[i] in t.donations
    requires forall i :: 0 <= i < |ids| ==> low <= ids[i]
    ensures forall id :: id in Counted(t, pantryId, pendingOnly, status, ids) ==>
      low <= id && id in t.donations && CountedBy(t.donations[id], pantryId, pendingOnly, status)
    ensures forall k :: 0 <= k < |ids| && CountedBy(t.donations[ids[k]], pantryId, pendingOnly, status) ==>
      ids[k] in Counted(t, pantryId, pendingOnly, status, ids)
  {
    if ids != [] {
      var tail := ids[1..];
      CountedMembers(t, pantryId, pendingOnly, status, tail, low);
      forall k | 0 < k < |ids| && CountedBy(t.donations[ids[k]], pantryId, pendingOnly, status)
        ensures ids[k] in Counted(t, pantryId, pendingOnly, status, ids)
      {
        assert ids[k] == tail[k - 1];
      }
    }
  }

  /** How many of `rows` a COUNT over them gives: COUNT(d.Donation_ID) when no
      status is named, COUNT(CASE WHEN d.Status = status ...) otherwise. */
  function CountOf(rows: seq<JoinedDonation>, status: Option<string>): nat {
    if status.None? then CountIds(rows) else CountStatus(rows, status.value)
  }

  lemma {:induction false} CountsOfMatched(t: Tables, pantryId: int, pendingOnly: bool, status: Option<string>, ids: seq<int>)
    requires forall i :: 0 <= i < |ids| ==> ids[i] in t.donations
    requires StrictlyIncreasing(ids)
    ensures CountOf(MatchedRows(t, pantryId, pendingOnly, ids), status) == |Counted(t, pantryId, pendingOnly, status, ids)|
  {
    if ids != [] {
      var tail := ids[1..];
      CountsOfMatched(t, pantryId, pendingOnly, status, tail);
      CountedStep(t, pantryId, pendingOnly, status, ids);
      var d := t.donations[ids[0]];
      if OnClause(d, pantryId, pendingOnly) {
        CountOfCons(Matched(ids[0], d.status), MatchedRows(t, pantryId, pendingOnly, tail), status);
      }
    }
  }

  /** COUNT over a group, one row at a time. */
  lemma CountOfCons(row: JoinedDonation, rest: seq<JoinedDonation>, status: Option<string>)
    ensures CountOf([row] + rest, status) ==
      (if row.Matched? && (status.Some? ==> row.status == status.value) then 1 else 0) + CountOf(rest, status)
  {
    assert ([row] + rest)[0] == row && ([row] + rest)[1..] == rest;
  }

  /** The counted set, one key at a time: the head key is new to it. */
  lemma CountedStep(t: Tables, pantryId: int, pendingOnly: bool, status: Option<string>, ids: seq<int>)
    requires forall i :: 0 <= i < |ids| ==> ids[i] in t.donations
    requires ids != [] && StrictlyIncreasing(ids)
    ensures |Counted(t, pantryId, pendingOnly, status, ids)| ==
      (if CountedBy(t.donations[ids[0]], pantryId, pendingOnly, status) then 1 else 0) +
      |Counted(t, pantryId, pendingOnly, status, ids[1..])|
  {
    var tail := ids[1..];
    if tail != [] {
      CountedMembers(t, pantryId, pendingOnly, status, tail, ids[1]);
    }
    assert ids[0] !in Counted(t, pantryId, pendingOnly, status, tail);
  }


  /** Over a list holding every donation key, the counted donations are the accepted ones. */
  lemma CountedIsAccepted(t: Tables, pantryId: int, pendingOnly: bool, status: Option<string>, keys: seq<int>)
    requires forall i :: 0 <= i < |keys| ==> keys[i] in t.donations
    requires forall id :: id in t.donations ==> id in keys
    requires StrictlyIncreasing(keys)
    ensures Counted(t, pantryId, pendingOnly, status, keys) == Accepted(t, pantryId, pendingOnly, status)
  {
    var counted, accepted := Counted(t, pantryId, pendingOnly, status, keys), Accepted(t, pantryId, pendingOnly, status);
    if keys != [] {
      CountedMembers(t, pantryId, pendingOnly, status, keys, keys[0]);
    }
    forall id ensures id in counted <==> id in accepted {
      if id in accepted {
        assert id in keys;
        var k :| 0 <= k < |keys| && keys[k] == id;
      }
    }
    assert counted == accepted;
  }

  /** The NULL row of a pantry without donations counts for nothing. */
  lemma UnmatchedCountsZero(status: Option<string>)
    ensures CountOf([Unmatched], status) == 0
  {
    var rows := [Unmatched];
    assert rows[0] == Unmatched && rows[1..] == [];
    assert CountIds(rows) == 0 && CountStatus(rows, if status.Some? then status.value else "") == 0;
  }

  lemma {:induction false} StatusesWithinTotal(rows: seq<JoinedDonation>)
    ensures CountStatus(rows, PENDING) + CountStatus(rows, COMPLETED) <= CountIds(rows)
  {
    if rows != [] {
      StatusesWithinTotal(rows[1..]);
    }
  }

  /** A pantry's group counts exactly the donations its ON clause accepts,
      and, per status, exactly those that also carry that status. */
  lemma GroupCounts(t: Tables, pantryId: int, pendingOnly: bool, status: Option<string>)
    ensures CountOf(PantryGroup(t, pantryId, pendingOnly), status) == |Accepted(t, pantryId, pendingOnly, status)|
  {
    var keys := SortedKeys(t.donations.Keys);
    CountsOfMatched(t, pantryId, pendingOnly, status, keys);
    if MatchedRows(t, pantryId, pendingOnly, keys) == [] {
      UnmatchedCountsZero(status);
    }
    CountedIsAccepted(t, pantryId, pendingOnly, status, keys);
  }

  /** NGO view: Total_Donations counts every donation addressed to the
      pantry (zero when there are none), Pending_Donations and
      Completed_Donations count those with that status, and the two never
      exceed the total. */
  lemma NgoCounts(t: Tables, pantryId: int)
    requires pantryId in t.pantries
    ensures NgoRowOf(t, pantryId).totalDonations == |DonationsTo(t, pantryId)|
    ensures NgoRowOf(t, pantryId).pendingDonations == |DonationsWithStatus(t, pantryId, PENDING)|
    ensures NgoRowOf(t, pantryId).completedDonations == |DonationsWithStatus(t, pantryId, COMPLETED)|
    ensures NgoRowOf(t, pantryId).pendingDonations + NgoRowOf(t, pantryId).completedDonations
            <= NgoRowOf(t, pantryId).totalDonations
  {
    GroupCounts(t, pantryId, false, None);
    GroupCounts(t, pantryId, false, Some(PENDING));
    GroupCounts(t, pantryId, false, Some(COMPLETED));
    AcceptedAll(t, pantryId);
    AcceptedWithStatus(t, pantryId, false, PENDING);
    AcceptedWithStatus(t, pantryId, false, COMPLETED);
    StatusesWithinTotal(PantryGroup(t, pantryId, false));
  }

  lemma AcceptedAll(t: Tables, pantryId: int)
    ensures Accepted(t, pantryId, false, None) == DonationsTo(t, pantryId)
  {
    var a, b := Accepted(t, pantryId, false, None), DonationsTo(t, pantryId);
    forall id ensures id in a <==> id in b {
    }
    assert a == b;
  }

  lemma AcceptedWithStatus(t: Tables, pantryId: int, pendingOnly: bool, status: string)
    requires pendingOnly ==> status == PENDING
    ensures Accepted(t, pantryId, pendingOnly, Some(status)) == DonationsWithStatus(t, pantryId, status)
  {
    var a, b := Accepted(t, pantryId, pendingOnly, Some(status)), DonationsWithStatus(t, pantryId, status);
    forall id ensures id in a <==> id in b {
    }
    assert a == b;
  }

  /** A pantry no donation is addressed to still has its NGO row, with all
      three counts zero: the LEFT JOIN's NULL row is not counted. */
  lemma PantryWithoutDonationsShowsZeros(t: Tables, pantryId: int)
    requires pantryId in t.pantries && DonationsTo(t, pantryId) == {}
    ensures NgoRowOf(t, pantryId).totalDonations == 0
    ensures NgoRowOf(t, pantryId).pendingDonations == 0
    ensures NgoRowOf(t, pantryId).completedDonations == 0
  {
    NgoCounts(t, pantryId);
  }

  /** Pantries view: Current_Donations counts only the Pending donations
      addressed to the pantry. */
  lemma CurrentDonationsArePending(t: Tables, pantryId: int)
    requires pantryId in t.pantries
    ensures PantryRowOf(t, pantryId).currentDonations == |DonationsWithStatus(t, pantryId, PENDING)|
  {
    GroupCounts(t, pantryId, true, None);
    AcceptedPendingOnly(t, pantryId);
  }

  lemma AcceptedPendingOnly(t: Tables, pantryId: int)
    ensures Accepted(t, pantryId, true, None) == DonationsWithStatus(t, pantryId, PENDING)
  {
    var a, b := Accepted(t, pantryId, true, None), DonationsWithStatus(t, pantryId, PENDING);
    forall id ensures id in a <==> id in b {
    }
    assert a == b;
  }

  /** The two per-pantry views list the pantries in the same order, and each
      pantry's occupancy equals its NGO Pending count. */
  lemma OccupancyMatchesNgoPending(t: Tables)
    ensures |AvailablePantries(t)| == |NgoPantries(t)|
    ensures forall i :: 0 <= i < |AvailablePantries(t)| ==>
      AvailablePantries(t)[i].pantryId == PantryIds(t)[i] &&
      AvailablePantries(t)[i].currentDonations == NgoPantries(t)[i].pendingDonations
  {
    forall i | 0 <= i < |AvailablePantries(t)|
      ensures AvailablePantries(t)[i].currentDonations == NgoPantries(t)[i].pendingDonations
    {
      NgoCounts(t, PantryIds(t)[i]);
      CurrentDonationsArePending(t, PantryIds(t)[i]);
    }
  }
}
