/** The relational schema of the donation server, held in memory: one map
    from primary key to row for each of the five tables, plus the small
    wrappers (Option, Response) the handlers use for absent values and for
    the HTTP status/result of a request. */
module Schema {

  datatype Option<+T> = None | Some(value: T)

  /** What a handler sends back: a success body, or an HTTP error status with
      the message of the JSON `error` field. */
  datatype Response<+T> = Ok(body: T) | Err(status: nat, error: string)

  /** USER(UserID, Name, Role), keyed by UserID. */
  datatype User = User(name: string, role: string)

  /** Restaurant(ID, Restaurant, Cuisine, Contact, Address, UserID), keyed by ID. */
  datatype Restaurant = Restaurant(name: string, cuisine: string, contact: string, address: string, userId: int)

  /** Food_Item(Food_Item_ID, Restaurant_ID, Name, Quantity, Type, Condition), keyed by Food_Item_ID. */
  datatype FoodItem = FoodItem(restaurantId: int, name: string, quantity: int, itemType: string, condition: string)

  /** Donation(Donation_ID, Food_Item_ID, Pantry_ID, Donation_Date, Quantity, Status),
      keyed by Donation_ID. Dates are opaque timestamps ordered as integers. */
  datatype Donation = Donation(foodItemId: int, pantryId: int, date: int, quantity: int, status: string)

  /** Food_Pantry(PantryID, Name, Address, Contact_Info, Hours, Capacity), keyed by PantryID. */
  datatype Pantry = Pantry(name: string, address: string, contactInfo: string, hours: string, capacity: int)

  /** The rows of every table at one moment. */
  datatype Tables = Tables(
    users: map<int, User>,
    restaurants: map<int, Restaurant>,
    foodItems: map<int, FoodItem>,
    donations: map<int, Donation>,
    pantries: map<int, Pantry>)

  const PENDING := "Pending"
  const COMPLETED := "Completed"
  const FRESH := "Fresh"
  const HEAD_CHEF := "Head Chef"

  ghost predicate StrictlyIncreasing(s: seq<int>) {
    forall i, j :: 0 <= i < j < |s| ==> s[i] < s[j]
  }

  /** A non-empty set has an element: the fact the such-that in Least needs. */
  lemma ElementExists(s: set<int>)
    requires s != {}
    ensures exists y :: y in s
  {
    if forall y :: y !in s {
      assert false;
    }
  }

  /** The least element of a non-empty set of keys. */
  ghost function Least(s: set<int>): (m: int)
    requires s != {}
    ensures m in s && forall x :: x in s ==> m <= x
    decreases |s|
  {
    ElementExists(s);
    var y :| y in s;
    var rest := s - {y};
    if rest == {} then
      assert s == {y};
      y
    else
      var m := Least(rest);
      assert forall x :: x in s ==> x == y || x in rest;
      if y < m then y else m
  }

  /** The keys of a table in ascending order: the order in which a scan over
      the primary key visits its rows. */
  function SortedKeys(s: set<int>): (r: seq<int>)
    ensures |r| == |s|
    ensures forall i :: 0 <= i < |r| ==> r[i] in s
    ensures forall x :: x in s ==> x in r
    ensures StrictlyIncreasing(r)
    decreases |s|
  {
    if s == {} then []
    else
      // Least(s) is the witness that lets the such-that below be satisfied.
      ghost var least := Least(s);
      var m :| m in s && forall x :: x in s ==> m <= x;
      var rest := SortedKeys(s - {m});
      PrependLeast(s, m, rest);
      [m] + rest
  }

  lemma PrependLeast(s: set<int>, m: int, rest: seq<int>)
    requires m in s && forall x :: x in s ==> m <= x
    requires |rest| == |s - {m}|
    requires forall i :: 0 <= i < |rest| ==> rest[i] in s - {m}
    requires forall x :: x in s - {m} ==> x in rest
    requires StrictlyIncreasing(rest)
    ensures |[m] + rest| == |s|
    ensures forall i :: 0 <= i < |[m] + rest| ==> ([m] + rest)[i] in s
    ensures forall x :: x in s ==> x in [m] + rest
    ensures StrictlyIncreasing([m] + rest)
  {
    forall i | 0 <= i < |rest| ensures m < rest[i] {
      assert rest[i] in s - {m};
    }
    assert forall x :: x in s ==> x == m || x in s - {m};
  }
}
