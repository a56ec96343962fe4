/** `SubscriptionModel`: a snapshot of one subscription link, built from a
    raw payload plus the subscribed user and the subscribing auth. */
module Subscription {
  import opened Wrappers
  import opened Json

  /** The attributes the model copies from the subscribed user. */
  datatype User = User(id: int, username: string, name: string)

  /** The subscribing auth, held by reference only. */
  datatype Subscriber = Subscriber(authId: int)

  /** The result of `datetime.fromisoformat`; its structure is not modelled. */
  datatype DateTime = DateTime(instant: int)

  datatype ConstructionError =
    | MissingKey(key: string)   // `KeyError` on the payload
    | InvalidIsoDate            // `fromisoformat` rejected the expiry date

  /** The payload keys in the order the constructor reads them. */
  const ReadOrder: seq<string> := [
    "subscribedBy",
    "subscribedByData",
    "subscribedByExpire",
    "subscribedByExpireDate",
    "subscribedByAutoprolong",
    "subscribedIsExpiredNow",
    "currentSubscribePrice",
    "subscribedOn",
    "subscribedOnData",
    "subscribedOnExpiredNow",
    "subscribedOnDuration",
    "subscribePrice"
  ]

  /** Position of the expiry date, which is parsed as soon as it is read. */
  const ExpireDateIndex: nat := 3

  datatype SubscriptionModel = SubscriptionModel(
    id: int,
    username: string,
    name: string,
    active: Value,
    subscribedByData: Value,
    subscribedByExpire: Value,
    subscribedByExpireDate: DateTime,
    subscribedByAutoprolong: Value,
    subscribedIsExpiredNow: Value,
    currentSubscribePrice: Value,
    subscribedOn: Value,
    subscribedOnData: Value,
    subscribedOnExpiredNow: Value,
    subscribedOnDuration: Value,
    subscribePrice: Value,
    user: User,
    subscriber: Subscriber,
    raw: map<string, Value>)

  /** Index of the first of `keys` missing from `data`. */
  function FirstAbsent(keys: seq<string>, data: map<string, Value>): (r: Option<nat>)
    ensures r.Some? ==> r.value < |keys| && keys[r.value] !in data
    ensures r.Some? ==> forall j :: 0 <= j < r.value ==> keys[j] in data
    ensures r.None? <==> forall j :: 0 <= j < |keys| ==> keys[j] in data
  {
    if keys == [] then None
    else if keys[0] !in data then Some(0)
    else match FirstAbsent(keys[1..], data)
      case None => None
      case Some(i) => Some(i + 1)
  }

  /** The first absence in `a + b` is the first in `a`, or else the first in
      `b` shifted past `a`. */
  lemma {:induction false} FirstAbsentAppend(a: seq<string>, b: seq<string>, data: map<string, Value>)
    ensures FirstAbsent(a + b, data) ==
      match FirstAbsent(a, data)
      case Some(i) => Some(i)
      case None =>
        match FirstAbsent(b, data)
        case Some(j) => Some(|a| + j)
        case None => None
  {
    if a == [] {
      assert a + b == b;
    } else {
      assert (a + b)[1..] == a[1..] + b;
      FirstAbsentAppend(a[1..], b, data);
    }
  }

  /** Every key the constructor reads is present. */
  predicate PayloadComplete(data: map<string, Value>) {
    && "subscribedBy" in data
    && "subscribedByData" in data
    && "subscribedByExpire" in data
    && "subscribedByExpireDate" in data
    && "subscribedByAutoprolong" in data
    && "subscribedIsExpiredNow" in data
    && "currentSubscribePrice" in data
    && "subscribedOn" in data
    && "subscribedOnData" in data
    && "subscribedOnExpiredNow" in data
    && "subscribedOnDuration" in data
    && "subscribePrice" in data
  }

  /** Nothing in `ReadOrder` is absent exactly when the payload is complete. */
  lemma CompleteWhenNoneAbsent(data: map<string, Value>)
    ensures FirstAbsent(ReadOrder, data).None? <==> PayloadComplete(data)
  {
    if FirstAbsent(ReadOrder, data).None? {
      assert ReadOrder[0] in data && ReadOrder[1] in data && ReadOrder[2] in data && ReadOrder[3] in data;
      assert ReadOrder[4] in data && ReadOrder[5] in data && ReadOrder[6] in data && ReadOrder[7] in data;
      assert ReadOrder[8] in data && ReadOrder[9] in data && ReadOrder[10] in data && ReadOrder[11] in data;
    }
    if PayloadComplete(data) {
      forall j | 0 <= j < |ReadOrder|
        ensures ReadOrder[j] in data
      {
        assert j == 0 || j == 1 || j == 2 || j == 3 || j == 4 || j == 5 || j == 6 || j == 7
          || j == 8 || j == 9 || j == 10 || j == 11;
      }
    }
  }

  /** Reads `keys` from `data` in order: all their values, or a `KeyError`
      naming the first one missing. */
  function ReadAll(keys: seq<string>, data: map<string, Value>): (r: Result<seq<Value>, ConstructionError>)
    ensures r.Success? <==> FirstAbsent(keys, data).None?
    ensures r.Failure? ==> r.error == MissingKey(keys[FirstAbsent(keys, data).value])
    ensures r.Success? ==> |r.value| == |keys|
    ensures r.Success? ==> forall j :: 0 <= j < |keys| ==> keys[j] in data && r.value[j] == data[keys[j]]
  {
    if keys == [] then Success([])
    else if keys[0] !in data then Failure(MissingKey(keys[0]))
    else
      var rest :- ReadAll(keys[1..], data);
      Success([data[keys[0]]] + rest)
  }

  /** `datetime.fromisoformat(raw)`: the parsed instant, or the exception
      raised for a value it rejects. */
  function ParseDate(raw: Value, fromIsoFormat: Value -> Option<DateTime>): (r: Result<DateTime, ConstructionError>)
    ensures r.Success? <==> fromIsoFormat(raw).Some?
    ensures r.Success? ==> fromIsoFormat(raw) == Some(r.value)
    ensures r.Failure? ==> r.error == InvalidIsoDate
  {
    match fromIsoFormat(raw)
    case Some(d) => Success(d)
    case None => Failure(InvalidIsoDate)
  }

  /** Whether the expiry date is present and parses. */
  predicate DateParses(data: map<string, Value>, fromIsoFormat: Value -> Option<DateTime>) {
    ReadOrder[ExpireDateIndex] in data && fromIsoFormat(data[ReadOrder[ExpireDateIndex]]).Some?
  }

  /** `SubscriptionModel(data, user, subscriber)`. Keys are read in
      `ReadOrder`, the expiry date being parsed right after it is read; the
      first missing key, or an unparsable date met before it, aborts. */
  function NewSubscription(data: map<string, Value>, user: User, subscriber: Subscriber,
                           fromIsoFormat: Value -> Option<DateTime>)
    : (r: Result<SubscriptionModel, ConstructionError>)
    ensures var first := FirstAbsent(ReadOrder, data);
      first.Some? && (first.value <= ExpireDateIndex || DateParses(data, fromIsoFormat)) ==>
        r == Failure(MissingKey(ReadOrder[first.value]))
    ensures var first := FirstAbsent(ReadOrder, data);
      (first.None? || first.value > ExpireDateIndex) && !DateParses(data, fromIsoFormat) ==>
        r == Failure(InvalidIsoDate)
    ensures r.Success? <==> FirstAbsent(ReadOrder, data).None? && DateParses(data, fromIsoFormat)
    ensures r.Success? ==> PayloadComplete(data)
    ensures r.Success? ==>
      && r.value.active == data["subscribedBy"]
      && r.value.subscribedByData == data["subscribedByData"]
      && r.value.subscribedByExpire == data["subscribedByExpire"]
      && Some(r.value.subscribedByExpireDate) == fromIsoFormat(data["subscribedByExpireDate"])
      && r.value.subscribedByAutoprolong == data["subscribedByAutoprolong"]
      && r.value.subscribedIsExpiredNow == data["subscribedIsExpiredNow"]
      && r.value.currentSubscribePrice == data["currentSubscribePrice"]
      && r.value.subscribedOn == data["subscribedOn"]
      && r.value.subscribedOnData == data["subscribedOnData"]
      && r.value.subscribedOnExpiredNow == data["subscribedOnExpiredNow"]
      && r.value.subscribedOnDuration == data["subscribedOnDuration"]
      && r.value.subscribePrice == data["subscribePrice"]
    ensures r.Success? ==>
      && r.value.id == user.id && r.value.username == user.username && r.value.name == user.name
      && r.value.user == user && r.value.subscriber == subscriber && r.value.raw == data
  {
    var head, tail := ReadOrder[..ExpireDateIndex + 1], ReadOrder[ExpireDateIndex + 1..];
    assert head + tail == ReadOrder;
    FirstAbsentAppend(head, tail, data);
    var _ :- ReadAll(head, data);
    assert head[ExpireDateIndex] == "subscribedByExpireDate";
    var expireDate :- ParseDate(data["subscribedByExpireDate"], fromIsoFormat);
    var _ :- ReadAll(tail, data);
    CompleteWhenNoneAbsent(data);
    Success(Assemble(data, user, subscriber, expireDate))
  }

  /** The record built once every key has been read. */
  function Assemble(data: map<string, Value>, user: User, subscriber: Subscriber, expireDate: DateTime)
    : (m: SubscriptionModel)
    requires PayloadComplete(data)
    ensures m.active == data["subscribedBy"]
    ensures m.subscribedByData == data["subscribedByData"]
    ensures m.subscribedByExpire == data["subscribedByExpire"]
    ensures m.subscribedByExpireDate == expireDate
    ensures m.subscribedByAutoprolong == data["subscribedByAutoprolong"]
    ensures m.subscribedIsExpiredNow == data["subscribedIsExpiredNow"]
    ensures m.currentSubscribePrice == data["currentSubscribePrice"]
    ensures m.subscribedOn == data["subscribedOn"]
    ensures m.subscribedOnData == data["subscribedOnData"]
    ensures m.subscribedOnExpiredNow == data["subscribedOnExpiredNow"]
    ensures m.subscribedOnDuration == data["subscribedOnDuration"]
    ensures m.subscribePrice == data["subscribePrice"]
    ensures m.id == user.id && m.username == user.username && m.name == user.name
    ensures m.user == user && m.subscriber == subscriber && m.raw == data
  {
    SubscriptionModel(
      user.id, user.username, user.name,
      data["subscribedBy"], data["subscribedByData"], data["subscribedByExpire"], expireDate,
      data["subscribedByAutoprolong"], data["subscribedIsExpiredNow"], data["currentSubscribePrice"],
      data["subscribedOn"], data["subscribedOnData"], data["subscribedOnExpiredNow"],
      data["subscribedOnDuration"], data["subscribePrice"],
      user, subscriber, data)
  }

  /** `is_active()`: the truthiness of the stored `subscribedBy` value. */
  function IsActive(m: SubscriptionModel): (active: bool)
    ensures m.active.Bool? ==> active == m.active.b
    ensures m.active.Int? ==> (active <==> m.active.n != 0)
    ensures m.active.Null? ==> !active
    ensures m.active.Str? ==> (active <==> m.active.s != "")
    ensures m.active.List? ==> (active <==> m.active.items != [])
    ensures m.active.Dict? ==> (active <==> m.active.fields != map[])
  {
    Truthy(m.active)
  }

  /** A constructed subscription is active exactly when the payload's
      `subscribedBy` is truthy; for a boolean payload, when it is true. */
  lemma IsActiveFollowsPayload(data: map<string, Value>, user: User, subscriber: Subscriber,
                               fromIsoFormat: Value -> Option<DateTime>)
    requires NewSubscription(data, user, subscriber, fromIsoFormat).Success?
    ensures IsActive(NewSubscription(data, user, subscriber, fromIsoFormat).value)
      == Truthy(data["subscribedBy"])
    ensures data["subscribedBy"].Bool? ==>
      IsActive(NewSubscription(data, user, subscriber, fromIsoFormat).value) == data["subscribedBy"].b
  {
  }

  /** A payload with every key but `subscribePrice` (and a parsable date)
      fails naming that key. */
  lemma MissingSubscribePrice(data: map<string, Value>, user: User, subscriber: Subscriber,
                              fromIsoFormat: Value -> Option<DateTime>)
    requires forall j :: 0 <= j < |ReadOrder| - 1 ==> ReadOrder[j] in data
    requires "subscribePrice" !in data
    requires DateParses(data, fromIsoFormat)
    ensures NewSubscription(data, user, subscriber, fromIsoFormat) == Failure(MissingKey("subscribePrice"))
  {
    var init, last := ReadOrder[..|ReadOrder| - 1], ReadOrder[|ReadOrder| - 1..];
    assert init + last == ReadOrder;
    assert FirstAbsent(init, data).None?;
    assert last == ["subscribePrice"];
    assert FirstAbsent(last, data) == Some(0);
    FirstAbsentAppend(init, last, data);
  }
}
