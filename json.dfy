/**
 * The decoded JSON tree that the HTTP response body is parsed into, and the
 * accessors of that tree the two fetch flows call. Decoding the text itself is
 * not part of this model.
 */
module Json {
  import opened Results

  /** A JSON number keeps the text it was written with. */
  datatype Json =
    | JNull
    | JBool(b: bool)
    | JNumber(text: string)
    | JString(s: string)
    | JArray(items: seq<Json>)
    | JObject(members: seq<Member>)

  /** An object member, in document order. */
  datatype Member = Member(key: string, value: Json)

  /**
   * JsonObject.get(key): the value of the member named key, or None when
   * there is none. When the text repeats a key, the decoder's put replaces the
   * earlier value, so the last occurrence is the one seen (see EntrySet).
   */
  function Get(members: seq<Member>, key: string): (r: Option<Json>)
    ensures r.None? <==> forall i :: 0 <= i < |members| ==> members[i].key != key
    ensures r.Some? ==> exists i :: 0 <= i < |members| && members[i] == Member(key, r.value)
                                    && forall j :: i < j < |members| ==> members[j].key != key
  {
    if |members| == 0 then None
    else if members[|members| - 1].key == key then Some(members[|members| - 1].value)
    else Get(members[..|members| - 1], key)
  }

  /** No two members share a key, as in the entries of a JsonObject. */
  predicate DistinctKeys(ms: seq<Member>) {
    forall i, j :: 0 <= i < j < |ms| ==> ms[i].key != ms[j].key
  }

  /** Where the first member named key stands; |ms| when there is none. */
  function FirstIndex(ms: seq<Member>, key: string): (i: nat)
    ensures i <= |ms|
    ensures i < |ms| <==> Get(ms, key).Some?
    ensures i < |ms| ==> ms[i].key == key
    ensures forall j :: 0 <= j < i ==> ms[j].key != key
  {
    if |ms| == 0 then 0
    else
      var init := ms[..|ms| - 1];
      var i := FirstIndex(init, key);
      if i < |init| then i else if ms[|ms| - 1].key == key then |ms| - 1 else |ms|
  }

  /** The lookup of m's key gives m's value. */
  predicate Holds(ms: seq<Member>, m: Member) {
    Get(ms, m.key) == Some(m.value)
  }

  /** With distinct keys, a member is present exactly when the lookup of its key gives its value. */
  lemma LookupDistinct(ms: seq<Member>, m: Member)
    requires DistinctKeys(ms)
    ensures m in ms <==> Holds(ms, m)
  {
    if m in ms {
      var i :| 0 <= i < |ms| && ms[i] == m;
      var k :| 0 <= k < |ms| && ms[k] == Member(m.key, Get(ms, m.key).value)
                              && forall j :: k < j < |ms| ==> ms[j].key != m.key;
      assert k == i;
    }
  }

  /** Two member lists agree on every lookup when the distinct-keyed one holds exactly the other's results. */
  lemma SameLookup(ms: seq<Member>, es: seq<Member>)
    requires DistinctKeys(es)
    requires forall x :: x in es <==> Holds(ms, x)
    ensures forall k :: Get(es, k) == Get(ms, k)
  {
    forall k ensures Get(es, k) == Get(ms, k) {
      if Get(ms, k).Some? {
        var m := Member(k, Get(ms, k).value);
        assert Holds(ms, m);
        LookupDistinct(es, m);
      }
      if Get(es, k).Some? {
        var m := Member(k, Get(es, k).value);
        LookupDistinct(es, m);
        assert Holds(ms, m);
      }
    }
  }

  /**
   * LinkedTreeMap.put, the insertion the decoder makes for each member: a new
   * key goes last, a known key keeps its place and takes the new value.
   */
  function Put(es: seq<Member>, m: Member): (r: seq<Member>)
    requires DistinctKeys(es)
    ensures DistinctKeys(r)
    ensures |r| == if Get(es, m.key).Some? then |es| else |es| + 1
  {
    if Get(es, m.key).Some? then es[FirstIndex(es, m.key) := m] else es + [m]
  }

  /** Where the put member lands: in place of its key, or last when the key is new. */
  lemma PutPlaces(es: seq<Member>, m: Member)
    requires DistinctKeys(es)
    ensures forall i :: 0 <= i < |es| ==> Put(es, m)[i] == if es[i].key == m.key then m else es[i]
    ensures Get(es, m.key).None? ==> Put(es, m)[|es|] == m
  {
  }

  /** The members after a put: the put member, and the others whose key differs from it. */
  lemma PutMembers(es: seq<Member>, m: Member)
    requires DistinctKeys(es)
    ensures forall x :: x in Put(es, m) <==> x == m || (x in es && x.key != m.key)
  {
    var r := Put(es, m);
    PutPlaces(es, m);
    forall x | x in es && x.key != m.key ensures x in r {
      var i :| 0 <= i < |es| && es[i] == x;
      assert r[i] == x;
    }
  }

  /** A lookup sees the last member when it has the key, and the earlier members otherwise. */
  lemma GetLast(ms: seq<Member>, k: string)
    requires |ms| > 0
    ensures Get(ms, k) == if ms[|ms| - 1].key == k then Some(ms[|ms| - 1].value) else Get(ms[..|ms| - 1], k)
  {
  }

  /**
   * JsonObject.entrySet(): one entry per key, standing where the key first
   * appears in the text and holding the key's last value.
   */
  function EntrySet(ms: seq<Member>): (r: seq<Member>)
    ensures DistinctKeys(r)
  {
    if |ms| == 0 then [] else Put(EntrySet(ms[..|ms| - 1]), ms[|ms| - 1])
  }

  /** The entries are exactly the keys of the members, each with its last value. */
  lemma {:induction false} EntrySetMembers(ms: seq<Member>)
    ensures forall x :: x in EntrySet(ms) <==> Holds(ms, x)
  {
    if |ms| > 0 {
      EntrySetMembers(ms[..|ms| - 1]);
      EntryMembersStep(ms, EntrySet(ms[..|ms| - 1]), EntrySet(ms));
    }
  }

  /** Putting the last member gives the entries for the longer list. */
  lemma EntryMembersStep(ms: seq<Member>, es: seq<Member>, r: seq<Member>)
    requires |ms| > 0 && DistinctKeys(es)
    requires forall x :: x in es <==> Holds(ms[..|ms| - 1], x)
    requires r == Put(es, ms[|ms| - 1])
    ensures forall x :: x in r <==> Holds(ms, x)
  {
    PutMembers(es, ms[|ms| - 1]);
    forall x ensures x in r <==> Holds(ms, x) {
      GetLast(ms, x.key);
    }
  }

  /** The entries stand in the order in which their keys first appear among the members. */
  predicate FirstAppearanceOrder(es: seq<Member>, ms: seq<Member>) {
    forall i, j :: 0 <= i < j < |es| ==> FirstIndex(ms, es[i].key) < FirstIndex(ms, es[j].key)
  }

  /** Putting the last member keeps the entries in order of first appearance. */
  lemma EntryOrderStep(ms: seq<Member>, init: seq<Member>, es: seq<Member>)
    requires |ms| > 0 && init == ms[..|ms| - 1] && es == EntrySet(init)
    requires FirstAppearanceOrder(es, init)
    ensures FirstAppearanceOrder(EntrySet(ms), ms)
  {
    var last := ms[|ms| - 1];
    var r := EntrySet(ms);
    assert r == Put(es, last);
    PutPlaces(es, last);
    EntrySetMembers(init);
    EntrySetMembers(ms);
    forall i | 0 <= i < |es|
      ensures r[i].key == es[i].key && FirstIndex(ms, r[i].key) == FirstIndex(init, es[i].key) < |init|
    {
      assert es[i] in es;
      assert Holds(init, es[i]);
    }
    if Get(es, last.key).None? {
      if Get(init, last.key).Some? {
        var m := Member(last.key, Get(init, last.key).value);
        assert Holds(init, m);
        LookupDistinct(es, m);
        assert false;
      }
      assert FirstIndex(init, last.key) == |init|;
      assert FirstIndex(ms, last.key) == |ms| - 1;
    }
    assert |r| <= |es| + 1 && (|r| == |es| + 1 ==> Get(es, last.key).None? && r[|es|] == last);
    RanksIncrease(ms, init, es, r);
  }

  /** Entries that keep their ranks below n, followed by at most one entry of rank n, stay in order. */
  lemma RanksIncrease(ms: seq<Member>, init: seq<Member>, es: seq<Member>, r: seq<Member>)
    requires FirstAppearanceOrder(es, init)
    requires |es| <= |r| <= |es| + 1
    requires forall i :: 0 <= i < |es| ==> FirstIndex(ms, r[i].key) == FirstIndex(init, es[i].key) < |init|
    requires |r| == |es| + 1 ==> FirstIndex(ms, r[|es|].key) == |init|
    ensures FirstAppearanceOrder(r, ms)
  {
    forall i, j | 0 <= i < j < |r| ensures FirstIndex(ms, r[i].key) < FirstIndex(ms, r[j].key) {
      var a := FirstIndex(init, es[i].key);
      assert FirstIndex(ms, r[i].key) == a < |init|;
      if j < |es| {
        var b := FirstIndex(init, es[j].key);
        assert a < b;
        assert FirstIndex(ms, r[j].key) == b;
      } else {
        assert FirstIndex(ms, r[j].key) == |init|;
      }
    }
  }

  /** Looking a key up in the entries gives what looking it up in the members gives. */
  lemma EntrySetLookup(ms: seq<Member>)
    ensures forall k :: Get(EntrySet(ms), k) == Get(ms, k)
  {
    EntrySetMembers(ms);
    SameLookup(ms, EntrySet(ms));
  }

  /** Each entry stands where its key first appears in the text. */
  lemma {:induction false} EntrySetOrder(ms: seq<Member>)
    ensures FirstAppearanceOrder(EntrySet(ms), ms)
  {
    if |ms| > 0 {
      EntrySetOrder(ms[..|ms| - 1]);
      EntryOrderStep(ms, ms[..|ms| - 1], EntrySet(ms[..|ms| - 1]));
    }
  }

  /** A member list without repeated keys is its own entry set. */
  lemma {:induction false} EntrySetOfDistinct(ms: seq<Member>)
    requires DistinctKeys(ms)
    ensures EntrySet(ms) == ms
  {
    if |ms| > 0 {
      var init := ms[..|ms| - 1];
      var last := ms[|ms| - 1];
      EntrySetOfDistinct(init);
      assert Get(init, last.key).None?;
      var r := Put(init, last);
      PutPlaces(init, last);
      assert EntrySet(ms) == r;
      assert r == init + [last] == ms;
    }
  }

  /** A key written twice gives one entry, holding the later value. */
  lemma EntrySetOfRepeat(a: Member, b: Member)
    requires a.key == b.key
    ensures EntrySet([a, b]) == [b]
  {
    assert [a, b][..1] == [a];
    EntrySetOfDistinct([a]);
    assert Get([a], b.key).Some?;
    assert FirstIndex([a], b.key) == 0;
  }

  /** A key that comes back after another keeps its first place and takes its last value. */
  lemma EntrySetOfReturn(a: Member, b: Member, c: Member)
    requires a.key != b.key && c.key == a.key
    ensures EntrySet([a, b, c]) == [c, b]
  {
    var ms := [a, b, c];
    assert ms[..2] == [a, b];
    EntrySetOfDistinct([a, b]);
    EntrySetStep(ms);
    PutOverFirst(a, b, c);
  }

  /** The entry set of a longer list puts its last member into the shorter list's entry set. */
  lemma EntrySetStep(ms: seq<Member>)
    requires |ms| > 0
    ensures EntrySet(ms) == Put(EntrySet(ms[..|ms| - 1]), ms[|ms| - 1])
  {
  }

  lemma PutOverFirst(a: Member, b: Member, c: Member)
    requires a.key != b.key && c.key == a.key
    ensures Put([a, b], c) == [c, b]
  {
    assert Get([a, b], c.key) == Some(a.value);
    PutPlaces([a, b], c);
  }

  /** Why an accessor refused a value (the exception it throws in the source). */
  datatype AccessError =
    | NotAnObject      // getAsJsonObject() on an element that is not an object
    | WrongMemberType  // the cast inside getAsJsonObject(key) fails
    | MissingMember    // get(key) returned null and the caller dereferenced it
    | NotAString       // getAsString() on null, an object or an array not of one element
    | NotANumber       // getAsDouble() on null, a boolean, an object or such an array

  /** JsonElement.getAsJsonObject(): the members, or a failure for any other element. */
  function AsObject(v: Json): (r: Result<seq<Member>, AccessError>)
    ensures r.Success? <==> v.JObject?
    ensures r.Success? ==> r.value == v.members
  {
    match v
    case JObject(ms) => Success(ms)
    case _ => Failure(NotAnObject)
  }

  /**
   * JsonObject.getAsJsonObject(key): None when the member is absent, the
   * members of the object when it is one, and a failed cast otherwise
   * (a JSON null included).
   */
  function GetObject(members: seq<Member>, key: string): (r: Result<Option<seq<Member>>, AccessError>)
    ensures r == Success(None) <==> Get(members, key).None?
    ensures r.Failure? <==> Get(members, key).Some? && !Get(members, key).value.JObject?
    ensures r.Success? && r.value.Some? ==> Get(members, key) == Some(JObject(r.value.value))
  {
    match Get(members, key)
    case None => Success(None)
    case Some(JObject(ms)) => Success(Some(ms))
    case Some(_) => Failure(WrongMemberType)
  }

  /**
   * JsonElement.getAsString(): a string's characters, a number's text, a
   * boolean's name; an array of exactly one element answers for that element.
   */
  function AsString(v: Json): (r: Option<string>)
    ensures v.JString? ==> r == Some(v.s)
    ensures v.JNumber? ==> r == Some(v.text)
    ensures v.JBool? ==> r == Some(if v.b then "true" else "false")
    ensures v.JArray? ==> r == if |v.items| == 1 then AsString(v.items[0]) else None
    ensures v.JNull? || v.JObject? ==> r.None?
    decreases v
  {
    match v
    case JString(s) => Some(s)
    case JNumber(t) => Some(t)
    case JBool(b) => Some(if b then "true" else "false")
    case JArray(items) => if |items| == 1 then AsString(items[0]) else None
    case _ => None
  }

  /**
   * JsonElement.getAsDouble(), with the number kept as its text: a number, or
   * a string (whose text the source converts with Double.parseDouble); an
   * array of exactly one element answers for that element.
   */
  function AsNumberText(v: Json): (r: Option<string>)
    ensures v.JString? ==> r == Some(v.s)
    ensures v.JNumber? ==> r == Some(v.text)
    ensures v.JArray? ==> r == if |v.items| == 1 then AsNumberText(v.items[0]) else None
    ensures v.JNull? || v.JBool? || v.JObject? ==> r.None?
    decreases v
  {
    match v
    case JString(s) => Some(s)
    case JNumber(t) => Some(t)
    case JArray(items) => if |items| == 1 then AsNumberText(items[0]) else None
    case _ => None
  }
}
