/** The two write endpoints, POST /api/donation/create and
    POST /api/donation/update-status, as methods of the database they
    change. The database holds the rows of the five tables and the
    AUTO_INCREMENT counters of the two tables the server inserts into. */
module Workflow {
  import opened Schema
  import opened Views

  // ---------------------------------------------------------------------
  // Requests and JavaScript truthiness
  // ---------------------------------------------------------------------

  /** The JSON body of a create request. `None` is a missing or null field. */
  datatype CreateRequest = CreateRequest(
    foodItem: Option<string>, quantity: Option<int>, itemType: Option<string>,
    restaurantId: Option<int>, pantryId: Option<int>)

  /** The JSON body of an update-status request. */
  datatype StatusRequest = StatusRequest(donationId: Option<int>, status: Option<string>)

  /** `!!v` for a string field: present and not empty. */
  predicate TruthyString(v: Option<string>) {
    v.Some? && v.value != ""
  }

  /** `!!v` for a number field: present and not zero. */
  predicate TruthyInt(v: Option<int>) {
    v.Some? && v.value != 0
  }

  /** The guard of the create handler: every one of the five fields is truthy. */
  predicate HasCreateFields(req: CreateRequest) {
    TruthyString(req.foodItem) && TruthyInt(req.quantity) && TruthyString(req.itemType) &&
    TruthyInt(req.restaurantId) && TruthyInt(req.pantryId)
  }

  /** The guard of the update handler: both fields are truthy. */
  predicate HasStatusFields(req: StatusRequest) {
    TruthyInt(req.donationId) && TruthyString(req.status)
  }

  // ---------------------------------------------------------------------
  // What the create handler writes and reads back
  // ---------------------------------------------------------------------

  /** Which of the database calls of a create request fail. A failing
      INSERT (a foreign-key violation, a lost connection, ...) writes nothing. */
  datatype CreateFaults = CreateFaults(
    begin: bool, foodInsert: bool, donationInsert: bool, commit: bool, verify: bool)

  /** The Food_Item row the create handler inserts. */
  function NewFoodItem(req: CreateRequest): FoodItem
    requires HasCreateFields(req)
  {
    FoodItem(req.restaurantId.value, req.foodItem.value, req.quantity.value, req.itemType.value, FRESH)
  }

  /** The Donation row the create handler inserts for the food item `foodItemId`. */
  function NewDonation(req: CreateRequest, foodItemId: int, now: int): Donation
    requires HasCreateFields(req)
  {
    Donation(foodItemId, req.pantryId.value, now, req.quantity.value, PENDING)
  }

  /** The tables after a committed create: the two new rows under the ids
      the counters handed out, and nothing else. */
  function Created(t: Tables, req: CreateRequest, now: int, foodItemId: int, donationId: int): Tables
    requires HasCreateFields(req)
  {
    t.(foodItems := t.foodItems[foodItemId := NewFoodItem(req)],
       donations := t.donations[donationId := NewDonation(req, foodItemId, now)])
  }

  /** One row of the verification read: the donation joined with its food
      item, restaurant and destination pantry. */
  datatype DonationSummary = DonationSummary(
    donationId: int, foodItem: string, source: string, destinationPantry: string,
    quantity: int, status: string, date: int)

  /** `verifyDonation[0]`: the joined row for `id`, or undefined when one of
      the three inner joins finds no partner. */
  function VerifyRow(t: Tables, id: int): (r: Option<DonationSummary>)
    ensures r.Some? <==> Joins(t, id)
    ensures r.Some? ==>
      var row := PantryDonationRowOf(t, id);
      r.value.donationId == id && r.value.foodItem == row.foodItem && r.value.source == row.source &&
      r.value.quantity == row.quantity && r.value.status == row.status && r.value.date == row.date &&
      r.value.destinationPantry == t.pantries[t.donations[id].pantryId].name
  {
    if Joins(t, id) then
      var d := t.donations[id];
      var f := t.foodItems[d.foodItemId];
      Some(DonationSummary(id, f.name, t.restaurants[f.restaurantId].name, t.pantries[d.pantryId].name,
                           d.quantity, d.status, d.date))
    else None
  }

  /** The success body: the message and the row read back, if any. */
  datatype CreateResult = CreateResult(message: string, donation: Option<DonationSummary>)

  const MISSING_FIELDS := "Missing required fields"
  const CREATE_FAILED := "Failed to create donation"
  const CREATED := "Donation created successfully"
  const MISSING_STATUS_FIELDS := "Missing donationId or status"
  const UPDATE_FAILED := "Failed to update status"
  const NOT_FOUND := "Donation not found"
  const UPDATED := "Status updated successfully"

  /** The tables after `UPDATE Donation SET Status = status WHERE Donation_ID = id`. */
  function WithStatus(t: Tables, id: int, status: string): Tables
    requires id in t.donations
  {
    t.(donations := t.donations[id := t.donations[id].(status := status)])
  }

  // ---------------------------------------------------------------------
  // The database
  // ---------------------------------------------------------------------

  class Database {
    var users: map<int, User>
    var restaurants: map<int, Restaurant>
    var foodItems: map<int, FoodItem>
    var donations: map<int, Donation>
    var pantries: map<int, Pantry>
    /** The AUTO_INCREMENT counters: the id the next insert receives. */
    var nextFoodItemId: int
    var nextDonationId: int

    /** Every stored id lies below its table's counter, so the next insert
        gets an id no row has. */
    ghost predicate Valid()
      reads this
    {
      1 <= nextFoodItemId && 1 <= nextDonationId &&
      (forall id :: id in foodItems ==> id < nextFoodItemId) &&
      (forall id :: id in donations ==> id < nextDonationId)
    }

    function Rows(): Tables
      reads this
    {
      Tables(users, restaurants, foodItems, donations, pantries)
    }

    constructor (t: Tables, nextFoodItemId: int, nextDonationId: int)
      requires 1 <= nextFoodItemId && 1 <= nextDonationId
      requires forall id :: id in t.foodItems ==> id < nextFoodItemId
      requires forall id :: id in t.donations ==> id < nextDonationId
      ensures Valid() && Rows() == t
      ensures this.nextFoodItemId == nextFoodItemId && this.nextDonationId == nextDonationId
    {
      users, restaurants, foodItems, donations, pantries := t.users, t.restaurants, t.foodItems, t.donations, t.pantries;
      this.nextFoodItemId, this.nextDonationId := nextFoodItemId, nextDonationId;
    }

    /** ROLLBACK: the rows go back to the snapshot taken at BEGIN; the
        counters keep the ids already handed out. */
    method Restore(snapshot: Tables)
      modifies this
      ensures Rows() == snapshot
      ensures nextFoodItemId == old(nextFoodItemId) && nextDonationId == old(nextDonationId)
    {
      users, restaurants, foodItems, donations, pantries :=
        snapshot.users, snapshot.restaurants, snapshot.foodItems, snapshot.donations, snapshot.pantries;
    }

    /** INSERT INTO Food_Item: the row is stored under a fresh id, which is returned. */
    method InsertFoodItem(item: FoodItem) returns (id: int)
      requires Valid()
      modifies this
      ensures Valid()
      ensures id == old(nextFoodItemId) && id !in old(foodItems)
      ensures Rows() == old(Rows()).(foodItems := old(foodItems)[id := item])
      ensures nextFoodItemId == id + 1 && nextDonationId == old(nextDonationId)
    {
      id := nextFoodItemId;
      foodItems := foodItems[id := item];
      nextFoodItemId := nextFoodItemId + 1;
    }

    /** INSERT INTO Donation: the row is stored under a fresh id, which is returned. */
    method InsertDonation(donation: Donation) returns (id: int)
      requires Valid()
      modifies this
      ensures Valid()
      ensures id == old(nextDonationId) && id !in old(donations)
      ensures Rows() == old(Rows()).(donations := old(donations)[id := donation])
      ensures nextDonationId == id + 1 && nextFoodItemId == old(nextFoodItemId)
    {
      id := nextDonationId;
      donations := donations[id := donation];
      nextDonationId := nextDonationId + 1;
    }

    /** POST /api/donation/create. `now` is the value of NOW(); `faults`
        says which database calls fail. */
    method CreateDonation(req: CreateRequest, now: int, faults: CreateFaults) returns (resp: Response<CreateResult>)
      requires Valid()
      modifies this
      ensures Valid()
      // a missing field: 400 before the transaction starts
      ensures !HasCreateFields(req) ==>
        resp == Err(400, MISSING_FIELDS) && Rows() == old(Rows()) &&
        nextFoodItemId == old(nextFoodItemId) && nextDonationId == old(nextDonationId)
      // a failure before COMMIT: 500, and the rollback leaves every table as it was;
      // each INSERT that succeeded has spent its id
      ensures HasCreateFields(req) && (faults.begin || faults.foodInsert || faults.donationInsert || faults.commit) ==>
        resp == Err(500, CREATE_FAILED) && Rows() == old(Rows())
      ensures HasCreateFields(req) && (faults.begin || faults.foodInsert) ==>
        nextFoodItemId == old(nextFoodItemId) && nextDonationId == old(nextDonationId)
      ensures HasCreateFields(req) && !(faults.begin || faults.foodInsert) && faults.donationInsert ==>
        nextFoodItemId == old(nextFoodItemId) + 1 && nextDonationId == old(nextDonationId)
      ensures HasCreateFields(req) && !(faults.begin || faults.foodInsert || faults.donationInsert) && faults.commit ==>
        nextFoodItemId == old(nextFoodItemId) + 1 && nextDonationId == old(nextDonationId) + 1
      // committed: both rows are stored; the answer depends on the read-back
      ensures HasCreateFields(req) && !(faults.begin || faults.foodInsert || faults.donationInsert || faults.commit) ==>
        Rows() == Created(old(Rows()), req, now, old(nextFoodItemId), old(nextDonationId)) &&
        nextFoodItemId == old(nextFoodItemId) + 1 && nextDonationId == old(nextDonationId) + 1 &&
        resp == (if faults.verify then Err(500, CREATE_FAILED)
                 else Ok(CreateResult(CREATED, VerifyRow(Rows(), old(nextDonationId)))))
    {
      if !HasCreateFields(req) {
        return Err(400, MISSING_FIELDS);
      }
      if faults.begin {
        return Err(500, CREATE_FAILED);
      }
      var snapshot := Rows();
      if faults.foodInsert {
        Restore(snapshot);
        return Err(500, CREATE_FAILED);
      }
      var foodItemId := InsertFoodItem(NewFoodItem(req));
      if faults.donationInsert {
        Restore(snapshot);
        return Err(500, CREATE_FAILED);
      }
      var donationId := InsertDonation(NewDonation(req, foodItemId, now));
      if faults.commit {
        Restore(snapshot);
        return Err(500, CREATE_FAILED);
      }
      // COMMIT: what a later ROLLBACK returns to is now the committed state.
      snapshot := Rows();
      if faults.verify {
        Restore(snapshot);
        return Err(500, CREATE_FAILED);
      }
      resp := Ok(CreateResult(CREATED, VerifyRow(Rows(), donationId)));
    }

    /** POST /api/donation/update-status. `fails` says whether the UPDATE
        statement fails. The number of affected rows is the number of rows
        the WHERE clause matched. */
    method UpdateStatus(req: StatusRequest, fails: bool) returns (resp: Response<string>)
      requires Valid()
      modifies this
      ensures Valid()
      ensures nextFoodItemId == old(nextFoodItemId) && nextDonationId == old(nextDonationId)
      ensures !HasStatusFields(req) ==> resp == Err(400, MISSING_STATUS_FIELDS) && Rows() == old(Rows())
      ensures HasStatusFields(req) && fails ==> resp == Err(500, UPDATE_FAILED) && Rows() == old(Rows())
      ensures HasStatusFields(req) && !fails && req.donationId.value !in old(donations) ==>
        resp == Err(404, NOT_FOUND) && Rows() == old(Rows())
      ensures HasStatusFields(req) && !fails && req.donationId.value in old(donations) ==>
        resp == Ok(UPDATED) && Rows() == WithStatus(old(Rows()), req.donationId.value, req.status.value)
    {
      if !HasStatusFields(req) {
        return Err(400, MISSING_STATUS_FIELDS);
      }
      if fails {
        return Err(500, UPDATE_FAILED);
      }
      var id, status := req.donationId.value, req.status.value;
      var affectedRows := 0;
      if id in donations {
        donations := donations[id := donations[id].(status := status)];
        affectedRows := 1;
      }
      if affectedRows == 0 {
        return Err(404, NOT_FOUND);
      }
      resp := Ok(UPDATED);
    }
  }

  // ---------------------------------------------------------------------
  // What a committed create does to the tables and to the read views
  // ---------------------------------------------------------------------

  /** A committed create adds exactly one Food_Item and one Donation, under
      the fresh ids. */
  lemma CreateAddsExactlyTwoRows(t: Tables, req: CreateRequest, now: int, foodItemId: int, donationId: int)
    requires HasCreateFields(req)
    requires foodItemId !in t.foodItems && donationId !in t.donations
    ensures var t' := Created(t, req, now, foodItemId, donationId);
      t'.foodItems.Keys == t.foodItems.Keys + {foodItemId} && |t'.foodItems| == |t.foodItems| + 1 &&
      t'.donations.Keys == t.donations.Keys + {donationId} && |t'.donations| == |t.donations| + 1
  {
    AddKey(t.foodItems, foodItemId, NewFoodItem(req));
    AddKey(t.donations, donationId, NewDonation(req, foodItemId, now));
  }

  lemma AddKey<V>(m: map<int, V>, k: int, v: V)
    requires k !in m
    ensures m[k := v].Keys == m.Keys + {k} && |m[k := v]| == |m| + 1
  {
    assert m[k := v].Keys == m.Keys + {k};
  }

  /** A committed create changes no row that existed before it, in any table. */
  lemma CreateKeepsOtherRows(t: Tables, req: CreateRequest, now: int, foodItemId: int, donationId: int)
    requires HasCreateFields(req)
    requires foodItemId !in t.foodItems && donationId !in t.donations
    ensures var t' := Created(t, req, now, foodItemId, donationId);
      (forall id :: id in t.foodItems ==> id in t'.foodItems && t'.foodItems[id] == t.foodItems[id]) &&
      (forall id :: id in t.donations ==> id in t'.donations && t'.donations[id] == t.donations[id]) &&
      t'.users == t.users && t'.restaurants == t.restaurants && t'.pantries == t.pantries
  {
  }

  /** The new rows carry the request: the item has the request's restaurant,
      name, quantity and type with Condition Fresh; the donation points at
      that item and has the request's pantry, the same quantity, the time of
      the request and Status Pending. */
  lemma CreatedRowsCarryRequest(t: Tables, req: CreateRequest, now: int, foodItemId: int, donationId: int)
    requires HasCreateFields(req)
    ensures var t' := Created(t, req, now, foodItemId, donationId);
      var item, d := t'.foodItems[foodItemId], t'.donations[donationId];
      item.restaurantId == req.restaurantId.value && item.name == req.foodItem.value &&
      item.quantity == req.quantity.value && item.itemType == req.itemType.value && item.condition == FRESH &&
      d.foodItemId == foodItemId && d.pantryId == req.pantryId.value && d.date == now &&
      d.quantity == item.quantity && d.status == PENDING
  {
  }

  /** The verification read of a committed create finds the new donation
      exactly when its restaurant and its pantry exist, and then reports
      what the request asked for. */
  lemma CreatedReadBack(t: Tables, req: CreateRequest, now: int, foodItemId: int, donationId: int)
    requires HasCreateFields(req)
    ensures var row := VerifyRow(Created(t, req, now, foodItemId, donationId), donationId);
      row.Some? <==> req.restaurantId.value in t.restaurants && req.pantryId.value in t.pantries
    ensures var row := VerifyRow(Created(t, req, now, foodItemId, donationId), donationId);
      row.Some? ==> row.value == DonationSummary(
        donationId, req.foodItem.value, t.restaurants[req.restaurantId.value].name,
        t.pantries[req.pantryId.value].name, req.quantity.value, PENDING, now)
  {
  }

  /** The donations addressed to pantry `p` after a committed create: the
      new donation joins the set of its own pantry, with status Pending,
      and every other set stays as it was. */
  lemma CreatedDonationSets(t: Tables, req: CreateRequest, now: int, foodItemId: int, donationId: int, p: int)
    requires HasCreateFields(req) && donationId !in t.donations
    ensures var t' := Created(t, req, now, foodItemId, donationId);
      DonationsTo(t', p) == DonationsTo(t, p) + (if p == req.pantryId.value then {donationId} else {})
    ensures var t' := Created(t, req, now, foodItemId, donationId);
      forall status :: DonationsWithStatus(t', p, status) ==
        DonationsWithStatus(t, p, status) + (if p == req.pantryId.value && status == PENDING then {donationId} else {})
  {
    var t' := Created(t, req, now, foodItemId, donationId);
    var extra: set<int> := if p == req.pantryId.value then {donationId} else {};
    forall id ensures id in DonationsTo(t', p) <==> id in DonationsTo(t, p) + extra {
      if id != donationId && id in t'.donations {
        assert t'.donations[id] == t.donations[id];
      }
    }
    assert DonationsTo(t', p) == DonationsTo(t, p) + extra;
    forall status ensures DonationsWithStatus(t', p, status) ==
      DonationsWithStatus(t, p, status) + (if p == req.pantryId.value && status == PENDING then {donationId} else {})
    {
      var added: set<int> := if p == req.pantryId.value && status == PENDING then {donationId} else {};
      forall id ensures id in DonationsWithStatus(t', p, status) <==> id in DonationsWithStatus(t, p, status) + added {
        if id != donationId && id in t'.donations {
          assert t'.donations[id] == t.donations[id];
        }
      }
      assert DonationsWithStatus(t', p, status) == DonationsWithStatus(t, p, status) + added;
    }
  }

  /** After a committed create, the NGO view shows one more donation, and
      one more Pending donation, for the destination pantry, and the
      pantries view one more current donation; every other pantry's counts
      and every Completed count stay the same. */
  lemma CreateRaisesCounts(t: Tables, req: CreateRequest, now: int, foodItemId: int, donationId: int, p: int)
    requires HasCreateFields(req) && donationId !in t.donations
    requires p in t.pantries
    ensures var t', bump := Created(t, req, now, foodItemId, donationId), if p == req.pantryId.value then 1 else 0;
      NgoRowOf(t', p).totalDonations == NgoRowOf(t, p).totalDonations + bump &&
      NgoRowOf(t', p).pendingDonations == NgoRowOf(t, p).pendingDonations + bump &&
      NgoRowOf(t', p).completedDonations == NgoRowOf(t, p).completedDonations &&
      PantryRowOf(t', p).currentDonations == PantryRowOf(t, p).currentDonations + bump
  {
    var t' := Created(t, req, now, foodItemId, donationId);
    CreatedDonationSets(t, req, now, foodItemId, donationId, p);
    NgoCounts(t, p);
    NgoCounts(t', p);
    CurrentDonationsArePending(t, p);
    CurrentDonationsArePending(t', p);
    assert donationId !in DonationsTo(t, p);
    assert donationId !in DonationsWithStatus(t, p, PENDING);
  }

  /** A committed create whose restaurant and pantry exist shows up in the
      pantry manager's view as a Pending row for the new donation. */
  lemma CreatedAppearsInPantryView(t: Tables, req: CreateRequest, now: int, foodItemId: int, donationId: int)
    requires HasCreateFields(req)
    requires req.restaurantId.value in t.restaurants && req.pantryId.value in t.pantries
    ensures var t' := Created(t, req, now, foodItemId, donationId);
      Joins(t', donationId) &&
      PantryDonationRowOf(t', donationId) in PantryDonations(t') &&
      PantryDonationRowOf(t', donationId).status == PENDING
  {
    PantryDonationsExactlyOnce(Created(t, req, now, foodItemId, donationId));
  }

  // ---------------------------------------------------------------------
  // What a status update does to the tables and to the read views
  // ---------------------------------------------------------------------

  /** An update stores the new status verbatim in that one row; every other
      field of the row, every other row and every other table is unchanged.
      Applying the same update twice is the same as applying it once. */
  lemma StatusUpdateTouchesOneField(t: Tables, id: int, status: string)
    requires id in t.donations
    ensures var t' := WithStatus(t, id, status);
      t'.donations.Keys == t.donations.Keys &&
      t'.donations[id].status == status &&
      t'.donations[id].(status := t.donations[id].status) == t.donations[id] &&
      (forall other :: other in t.donations && other != id ==> t'.donations[other] == t.donations[other]) &&
      t'.users == t.users && t'.restaurants == t.restaurants && t'.foodItems == t.foodItems && t'.pantries == t.pantries
    ensures WithStatus(WithStatus(t, id, status), id, status) == WithStatus(t, id, status)
  {
  }

  /** The donation sets after an update: every pantry keeps its donations,
      and the updated donation leaves the set of its old status and enters
      the set of its new one. */
  lemma StatusUpdateSets(t: Tables, id: int, status: string, p: int, s: string)
    requires id in t.donations
    ensures DonationsTo(WithStatus(t, id, status), p) == DonationsTo(t, p)
    ensures DonationsWithStatus(WithStatus(t, id, status), p, s) ==
      (DonationsWithStatus(t, p, s) - {id}) + (if t.donations[id].pantryId == p && status == s then {id} else {})
  {
    var t' := WithStatus(t, id, status);
    forall x ensures x in DonationsTo(t', p) <==> x in DonationsTo(t, p) {
      if x != id && x in t.donations {
        assert t'.donations[x] == t.donations[x];
      }
    }
    assert DonationsTo(t', p) == DonationsTo(t, p);
    var added: set<int> := if t.donations[id].pantryId == p && status == s then {id} else {};
    forall x ensures x in DonationsWithStatus(t', p, s) <==> x in (DonationsWithStatus(t, p, s) - {id}) + added {
      if x != id && x in t.donations {
        assert t'.donations[x] == t.donations[x];
      }
    }
    assert DonationsWithStatus(t', p, s) == (DonationsWithStatus(t, p, s) - {id}) + added;
  }

  /** Settling a Pending donation (giving it any other status) lowers its
      pantry's Pending count in the NGO view and its current donations in
      the pantries view by one, and leaves its total unchanged. */
  lemma SettlingPendingLowersCounts(t: Tables, id: int, status: string)
    requires id in t.donations && t.donations[id].status == PENDING && status != PENDING
    requires t.donations[id].pantryId in t.pantries
    ensures var p, t' := t.donations[id].pantryId, WithStatus(t, id, status);
      NgoRowOf(t', p).totalDonations == NgoRowOf(t, p).totalDonations &&
      NgoRowOf(t', p).pendingDonations + 1 == NgoRowOf(t, p).pendingDonations &&
      PantryRowOf(t', p).currentDonations + 1 == PantryRowOf(t, p).currentDonations
  {
    var p, t' := t.donations[id].pantryId, WithStatus(t, id, status);
    StatusUpdateSets(t, id, status, p, PENDING);
    NgoCounts(t, p);
    NgoCounts(t', p);
    CurrentDonationsArePending(t, p);
    CurrentDonationsArePending(t', p);
    assert id in DonationsWithStatus(t, p, PENDING);
  }

  /** An update changes no join: the same donations appear in the pantry
      manager's view, and the updated one shows its new status there. */
  lemma StatusUpdateKeepsJoins(t: Tables, id: int, status: string)
    requires id in t.donations
    ensures forall x :: Joins(WithStatus(t, id, status), x) <==> Joins(t, x)
    ensures Joins(t, id) ==>
      PantryDonationRowOf(WithStatus(t, id, status), id) == PantryDonationRowOf(t, id).(status := status)
  {
    var t' := WithStatus(t, id, status);
    forall x ensures Joins(t', x) <==> Joins(t, x) {
      if x in t.donations && x != id {
        assert t'.donations[x] == t.donations[x];
      }
    }
  }
}
