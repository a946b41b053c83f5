/** The datasets an Arrow Flight server lists, cached by name: ArrowFlightDataProvider. */
module FlightCache {
  import opened Wrappers
  import opened Bytes
  import opened QoreValues
  import opened DecimalText

  /** The flight infos of a ListFlights response. */
  type Flights = seq<seq<Entry>>

  datatype ListError = ListError(text: string)

  /** Decoding of a command as UTF-8 text. */
  type Utf8Text = seq<byte> -> string

  /** A member of a hash, or NOTHING. */
  function Member(v: Value, key: string): Value {
    if v.QHash? then GetKey(v.entries, key) else QNothing
  }

  /** The name of flight i: the head of its path, its command, or its number. */
  function NameOf(rt: Runtime, utf8: Utf8Text, flight: seq<Entry>, i: nat): string {
    var descriptor := GetKey(flight, "flight_descriptor");
    var path, cmd := Member(descriptor, "path"), Member(descriptor, "cmd");
    if path.QList? && path.items != [] then AsText(rt, path.items[0])
    else if cmd.QBinary? && cmd.bytes != [] then utf8(cmd.bytes)
    else "flight-" + NatText(i)
  }

  /** The cache that the first n flights make. */
  function CacheOf(rt: Runtime, utf8: Utf8Text, flights: Flights, n: nat): seq<Entry>
    requires n <= |flights|
  {
    if n == 0 then []
    else
      var name := NameOf(rt, utf8, flights[n - 1], n - 1);
      SetKey(CacheOf(rt, utf8, flights, n - 1), name, QHash(flights[n - 1]))
  }

  predicate Named(rt: Runtime, utf8: Utf8Text, flights: Flights, i: nat, name: string)
    requires i < |flights|
  {
    NameOf(rt, utf8, flights[i], i) == name
  }

  /** The last flight of a name is the one cached under it. */
  lemma {:induction false} LastFlightWins(rt: Runtime, utf8: Utf8Text, flights: Flights, n: nat, i: nat, name: string)
    requires i < n <= |flights| && Named(rt, utf8, flights, i, name)
    requires forall j :: i < j < n ==> !Named(rt, utf8, flights, j, name)
    ensures GetKey(CacheOf(rt, utf8, flights, n), name) == QHash(flights[i])
  {
    hide GetKey, SetKey, NameOf;
    var last := NameOf(rt, utf8, flights[n - 1], n - 1);
    SetThenGet(CacheOf(rt, utf8, flights, n - 1), last, QHash(flights[n - 1]), name);
    if i < n - 1 {
      assert !Named(rt, utf8, flights, n - 1, name);
      LastFlightWins(rt, utf8, flights, n - 1, i, name);
    }
  }

  /** The names in order of their first flight, once each. */
  function FirstNames(rt: Runtime, utf8: Utf8Text, flights: Flights, n: nat): seq<string>
    requires n <= |flights|
  {
    if n == 0 then []
    else
      var names, name := FirstNames(rt, utf8, flights, n - 1), NameOf(rt, utf8, flights[n - 1], n - 1);
      if name in names then names else names + [name]
  }

  function Keys(h: seq<Entry>): (keys: seq<string>)
    ensures |keys| == |h|
  {
    seq(|h|, i requires 0 <= i < |h| => h[i].key)
  }

  /** The cache lists its names in that order. */
  lemma {:induction false} KeysAreFirstNames(rt: Runtime, utf8: Utf8Text, flights: Flights, n: nat)
    requires n <= |flights|
    ensures Keys(CacheOf(rt, utf8, flights, n)) == FirstNames(rt, utf8, flights, n)
    ensures forall name ::
      name in Keys(CacheOf(rt, utf8, flights, n)) <==> exists i :: 0 <= i < n && Named(rt, utf8, flights, i, name)
  {
    hide GetKey, SetKey, NameOf;
    if n > 0 {
      KeysAreFirstNames(rt, utf8, flights, n - 1);
      var h, name := CacheOf(rt, utf8, flights, n - 1), NameOf(rt, utf8, flights[n - 1], n - 1);
      SetKeyPlaces(h, name, QHash(flights[n - 1]));
      HasKeyInKeys(h, name);
      assert Named(rt, utf8, flights, n - 1, name);
      var after := CacheOf(rt, utf8, flights, n);
      if name in Keys(h) {
        assert Keys(after) == Keys(h);
      } else {
        assert Keys(after) == Keys(h) + [name];
      }
    }
  }

  lemma HasKeyInKeys(h: seq<Entry>, key: string)
    ensures HasKey(h, key) <==> key in Keys(h)
  {
    if HasKey(h, key) {
      var i :| 0 <= i < |h| && h[i].key == key;
      assert Keys(h)[i] == key;
    }
  }

  /** The names of the operation providers. */
  const OPERATIONS := ["list-flights", "get-flight-info", "do-action", "list-actions"]

  datatype Provider = Operation(name: string) | Dataset(name: string, info: seq<Entry>)

  /** A child by name: operations come first, and a dataset with an empty info counts as none. */
  function Lookup(cache: seq<Entry>, name: string): Option<Provider> {
    if name in OPERATIONS then Some(Operation(name))
    else
      var info := GetKey(cache, name);
      if info.QHash? && info.entries != [] then Some(Dataset(name, info.entries)) else None
  }

  /** Which names lead to which child: an operation, or else the last flight of that name unless its info is empty. */
  lemma LookupFinds(rt: Runtime, utf8: Utf8Text, flights: Flights, name: string)
    ensures var child := Lookup(CacheOf(rt, utf8, flights, |flights|), name);
      && (name in OPERATIONS ==> child == Some(Operation(name)))
      && (name !in OPERATIONS && child.Some? ==>
            && child.value.Dataset? && child.value.name == name
            && exists i :: IsLast(rt, utf8, flights, i, name) && flights[i] == child.value.info != [])
      && (name !in OPERATIONS && child.None? ==>
            forall i :: 0 <= i < |flights| && IsLast(rt, utf8, flights, i, name) ==> flights[i] == [])
  {
    hide GetKey, SetKey, NameOf;
    var cache := CacheOf(rt, utf8, flights, |flights|);
    KeysAreFirstNames(rt, utf8, flights, |flights|);
    if name in Keys(cache) {
      var k :| 0 <= k < |flights| && Named(rt, utf8, flights, k, name);
      var i := LastOf(rt, utf8, flights, |flights|, k, name);
      LastFlightWins(rt, utf8, flights, |flights|, i, name);
      assert IsLast(rt, utf8, flights, i, name);
    } else {
      NotCached(cache, name);
    }
  }

  ghost predicate IsLast(rt: Runtime, utf8: Utf8Text, flights: Flights, i: int, name: string) {
    && 0 <= i < |flights| && Named(rt, utf8, flights, i, name)
    && forall j :: i < j < |flights| ==> !Named(rt, utf8, flights, j, name)
  }

  lemma {:induction false} LastOf(rt: Runtime, utf8: Utf8Text, flights: Flights, n: nat, k: nat, name: string)
    returns (i: nat)
    requires k < n <= |flights| && Named(rt, utf8, flights, k, name)
    ensures i < n && Named(rt, utf8, flights, i, name)
    ensures forall j :: i < j < n ==> !Named(rt, utf8, flights, j, name)
  {
    hide Named;
    if Named(rt, utf8, flights, n - 1, name) {
      i := n - 1;
    } else {
      i := LastOf(rt, utf8, flights, n - 1, k, name);
    }
  }

  lemma {:induction false} NotCached(h: seq<Entry>, key: string)
    requires key !in Keys(h)
    ensures GetKey(h, key) == QNothing
  {
    if h != [] {
      assert Keys(h)[0] == h[0].key;
      assert forall k :: 0 <= k < |h| - 1 ==> Keys(h)[k + 1] == Keys(h[1..])[k];
      NotCached(h[1..], key);
    }
  }

  /** The members of ArrowFlightDataProvider that the cache concerns, used by one thread.
      `response` is what ListFlights would answer. */
  class DataProvider {
    var flightInfoCache: seq<Entry>
    var cacheLoaded: bool
    /** The responses that calls of ListFlights gave so far. */
    ghost var asked: seq<Result<Flights, ListError>>

    constructor ()
      ensures flightInfoCache == [] && !cacheLoaded && asked == []
    {
      flightInfoCache := [];
      cacheLoaded := false;
      asked := [];
    }

    /** What a call leaves behind: an asked-for response, unless the cache was loaded, and the cache of a response
        that came. */
    twostate predicate Ensured(rt: Runtime, utf8: Utf8Text, response: Result<Flights, ListError>)
      reads this
    {
      && asked == (if old(cacheLoaded) then old(asked) else old(asked) + [response])
      && cacheLoaded == (old(cacheLoaded) || response.Ok?)
      && flightInfoCache == (if !old(cacheLoaded) && response.Ok?
                             then CacheOf(rt, utf8, response.value, |response.value|)
                             else old(flightInfoCache))
    }

    /** ensureFlightInfoCache. */
    method EnsureFlightInfoCache(rt: Runtime, utf8: Utf8Text, response: Result<Flights, ListError>)
      returns (error: Option<ListError>)
      modifies this
      ensures Ensured(rt, utf8, response)
      ensures error == if old(cacheLoaded) || response.Ok? then None else Some(response.error)
    {
      hide GetKey, SetKey, Member, NatText, AsText;
      if cacheLoaded {
        return None;
      }
      asked := asked + [response];
      if response.Err? {
        return Some(response.error);
      }
      var flights := response.value;
      var newCache: seq<Entry> := [];
      for i := 0 to |flights|
        invariant newCache == CacheOf(rt, utf8, flights, i)
      {
        var descriptor := GetKey(flights[i], "flight_descriptor");
        var path, cmd := Member(descriptor, "path"), Member(descriptor, "cmd");
        var name: string;
        if path.QList? && path.items != [] {
          name := AsText(rt, path.items[0]);
        } else if cmd.QBinary? && cmd.bytes != [] {
          name := utf8(cmd.bytes);
        } else {
          name := "flight-" + NatText(i);
        }
        newCache := SetKey(newCache, name, QHash(flights[i]));
      }
      flightInfoCache := newCache;
      cacheLoaded := true;
      error := None;
    }

    /** getChildProviderNamesImpl. */
    method GetChildProviderNames(rt: Runtime, utf8: Utf8Text, response: Result<Flights, ListError>)
      returns (r: Result<seq<string>, ListError>)
      modifies this
      ensures Ensured(rt, utf8, response)
      ensures r.Ok? <==> cacheLoaded
      ensures r.Ok? ==> r.value == Keys(flightInfoCache) + OPERATIONS
      ensures r.Err? ==> response == Err(r.error)
    {
      var error := EnsureFlightInfoCache(rt, utf8, response);
      if error.Some? {
        return Err(error.value);
      }
      r := Ok(Keys(flightInfoCache) + OPERATIONS);
    }

    /** getChildProviderImpl. */
    method GetChildProvider(rt: Runtime, utf8: Utf8Text, name: string, response: Result<Flights, ListError>)
      returns (r: Result<Option<Provider>, ListError>)
      modifies this
      ensures name in OPERATIONS ==>
        && r == Ok(Some(Operation(name)))
        && asked == old(asked) && cacheLoaded == old(cacheLoaded) && flightInfoCache == old(flightInfoCache)
      ensures name !in OPERATIONS ==>
        && Ensured(rt, utf8, response)
        && r == if cacheLoaded then Ok(Lookup(flightInfoCache, name)) else Err(response.error)
    {
      if name in OPERATIONS {
        return Ok(Some(Operation(name)));
      }
      var error := EnsureFlightInfoCache(rt, utf8, response);
      if error.Some? {
        return Err(error.value);
      }
      var info := GetKey(flightInfoCache, name);
      if info.QHash? && info.entries != [] {
        return Ok(Some(Dataset(name, info.entries)));
      }
      r := Ok(None);
    }
  }

  /** A flight without any info is listed, and cannot be opened. */
  lemma EmptyInfoIsListedButNotFound(rt: Runtime, utf8: Utf8Text)
    ensures Keys(CacheOf(rt, utf8, [[]], 1)) == ["flight-0"] && Lookup(CacheOf(rt, utf8, [[]], 1), "flight-0") == None
  {
    var flights: Flights := [[]];
    assert NatText(0) == "0";
    assert NameOf(rt, utf8, flights[0], 0) == "flight-0";
    assert CacheOf(rt, utf8, flights, 0) == [];
    assert CacheOf(rt, utf8, flights, 1) == [Entry("flight-0", QHash([]))];
    assert "flight-0"[0] == 'f' && "list-flights"[0] == 'l' && "get-flight-info"[0] == 'g' && "do-action"[0] == 'd';
    assert "list-actions"[0] == 'l';
  }
}
