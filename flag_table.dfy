/**
  The feature-flag dictionary as a value, and what each handler of the service
  does to it.

  A Python dict remembers insertion order, so the table is modelled as a map
  from keys to flags together with the sequence of its keys in insertion
  order. Each handler that changes the dictionary is a function from the old
  table to a `Step`: the new table and the handler's outcome.
 */
module FlagTable {
  import opened Optional
  import opened Keys

  datatype Flag = Flag(id: Key, enabled: bool, description: string)

  /** The JSON body of a create request; a field the body lacks is `None`. */
  datatype Body = Body(id: Option<Key>, enabled: Option<bool>, description: Option<string>)

  /** The error responses of the service. */
  datatype Error = MissingField | Conflict | NotFound

  datatype Result<T> = Ok(value: T) | Err(error: Error)

  /** The HTTP status each error is answered with. */
  function StatusCode(e: Error): (code: int)
    ensures 400 <= code < 500
    ensures code == 400 <==> e == MissingField
    ensures code == 409 <==> e == Conflict
    ensures code == 404 <==> e == NotFound
  {
    match e
    case MissingField => 400
    case Conflict => 409
    case NotFound => 404
  }

  /** Each error has its own status code. */
  lemma StatusCodesDistinct(e1: Error, e2: Error)
    ensures StatusCode(e1) == StatusCode(e2) ==> e1 == e2
  {
  }

  datatype Store = Store(flags: map<Key, Flag>, order: seq<Key>)

  datatype Step<T> = Step(store: Store, result: Result<T>)

  predicate Distinct(s: seq<Key>) {
    forall i, j :: 0 <= i < j < |s| ==> s[i] != s[j]
  }

  /**
    The table is a well-formed dict: the order lists each key once, it lists
    exactly the keys of the map, and every flag's `id` is the key it is stored
    under.
   */
  ghost predicate Valid(s: Store) {
    && Distinct(s.order)
    && (forall k :: k in s.flags <==> k in s.order)
    && (forall k :: k in s.flags ==> s.flags[k].id == k)
  }

  /** The two seed flags the process starts with. */
  function Seed(): (s: Store)
    ensures Valid(s)
    ensures |s.flags| == 2
  {
    Store(
      map[
        S("beta_dashboard") := Flag(S("beta_dashboard"), true, "Enable access to the new dashboard"),
        S("live_chat") := Flag(S("live_chat"), false, "Enable live chat support for users")
      ],
      [S("beta_dashboard"), S("live_chat")])
  }

  /*
   * The two-step probe
   */

  /** Which stored key the two-step probe lands on for the URL text `t`. */
  function Resolve(flags: map<Key, Flag>, t: string): (k: Option<Key>)
    ensures k.Some? ==> k.value in flags
  {
    if S(t) in flags then Some(S(t))
    else match ParseInt(t)
      case None => None
      case Some(n) => if I(n) in flags then Some(I(n)) else None
  }

  predicate TextPresent(flags: map<Key, Flag>, t: string) {
    S(t) in flags
  }

  predicate IntegerPresent(flags: map<Key, Flag>, t: string) {
    ParseInt(t).Some? && I(ParseInt(t).value) in flags
  }

  /** The flag the probe finds: the text key first, then the parsed integer key. */
  function GetFlag(flags: map<Key, Flag>, t: string): (r: Option<Flag>)
    ensures r.Some? <==> TextPresent(flags, t) || IntegerPresent(flags, t)
    ensures r.Some? ==> r.value in flags.Values
  {
    match Resolve(flags, t)
    case None => None
    case Some(k) => Some(flags[k])
  }

  /** The text key wins, even when the parsed integer key is stored too. */
  lemma TextKeyWins(flags: map<Key, Flag>, t: string)
    requires S(t) in flags
    ensures GetFlag(flags, t) == Some(flags[S(t)])
  {
  }

  /** Without the text key, the probe finds the integer key `t` parses to, or nothing. */
  lemma IntegerFallback(flags: map<Key, Flag>, t: string)
    requires S(t) !in flags
    ensures ParseInt(t).Some? && I(ParseInt(t).value) in flags ==>
              GetFlag(flags, t) == Some(flags[I(ParseInt(t).value)])
    ensures ParseInt(t).None? || I(ParseInt(t).value) !in flags ==> GetFlag(flags, t).None?
  {
  }

  /**
    Every stored flag is found under its own id written as text, unless the id
    is an integer whose rendering is also stored as a text key: then the text
    key wins.
   */
  lemma {:induction false} GetFlagOwnId(s: Store, k: Key)
    requires Valid(s)
    requires k in s.flags
    requires k.I? ==> S(Render(k.n)) !in s.flags
    ensures GetFlag(s.flags, KeyText(k)) == Some(s.flags[k])
    ensures GetFlag(s.flags, KeyText(k)).value.id == k
  {
    if k.I? {
      ParseRender(k.n);
    }
  }

  /** Both forms of one number stored: the probe for `str(n)` never returns the integer-keyed flag. */
  lemma {:induction false} IntegerKeyShadowed(s: Store, n: int)
    requires Valid(s)
    requires I(n) in s.flags && S(Render(n)) in s.flags
    ensures GetFlag(s.flags, Render(n)) == Some(s.flags[S(Render(n))])
    ensures GetFlag(s.flags, Render(n)) != Some(s.flags[I(n)])
  {
  }

  /**
    The integer-keyed flag stays reachable through another numeral of the same
    number, such as `+7` for `7` or `-03` for `-3`, so two entries sharing a
    number can still be told apart.
   */
  lemma IntegerKeyByAlias(flags: map<Key, Flag>, n: int)
    requires I(n) in flags && S(Alias(n)) !in flags
    ensures GetFlag(flags, Alias(n)) == Some(flags[I(n)])
    ensures Alias(n) != Render(n)
  {
    AliasParses(n);
  }

  /*
   * The listing
   */

  function KeySet(s: seq<Key>): set<Key> {
    set k | k in s
  }

  /** The tail of a distinct sequence is distinct and does not hold its head. */
  lemma DistinctTail(s: seq<Key>)
    requires s != []
    ensures Distinct(s) ==> Distinct(s[1..]) && s[0] !in s[1..]
  {
    if Distinct(s) {
      forall i, j | 0 <= i < j < |s[1..]| ensures s[1..][i] != s[1..][j] {
        assert s[1..][i] == s[i + 1] && s[1..][j] == s[j + 1];
      }
      forall j | 0 <= j < |s[1..]| ensures s[1..][j] != s[0] {
        assert s[1..][j] == s[j + 1];
      }
    }
  }

  lemma {:induction false} DistinctCount(s: seq<Key>)
    requires Distinct(s)
    ensures |KeySet(s)| == |s|
  {
    if s != [] {
      DistinctTail(s);
      DistinctCount(s[1..]);
      assert KeySet(s) == {s[0]} + KeySet(s[1..]);
    }
  }

  /** A well-formed table has as many entries as its order has keys. */
  lemma SizeIsOrderLength(s: Store)
    requires Valid(s)
    ensures |s.flags| == |s.order|
  {
    DistinctCount(s.order);
    assert s.flags.Keys == KeySet(s.order);
  }

  /** The flags stored under the keys of `order`, position by position. */
  function Project(flags: map<Key, Flag>, order: seq<Key>): (r: seq<Flag>)
    requires forall k :: k in order ==> k in flags
    ensures |r| == |order|
    ensures forall i :: 0 <= i < |r| ==> r[i] == flags[order[i]]
  {
    seq(|order|, i requires 0 <= i < |order| => flags[order[i]])
  }

  /** `list(feature_flags.values())`: every stored flag once, in insertion order. */
  function List(s: Store): (r: seq<Flag>)
    requires Valid(s)
    ensures |r| == |s.flags| == |s.order|
    ensures forall i :: 0 <= i < |r| ==> r[i] == s.flags[s.order[i]]
    ensures forall f :: f in r <==> f in s.flags.Values
  {
    SizeIsOrderLength(s);
    var r := Project(s.flags, s.order);
    assert forall f :: f in s.flags.Values ==> f in r by {
      forall f | f in s.flags.Values ensures f in r {
        var k :| k in s.flags && s.flags[k] == f;
        var i :| 0 <= i < |s.order| && s.order[i] == k;
        assert r[i] == f;
      }
    }
    r
  }

  /*
   * Create
   */

  predicate Complete(b: Body) {
    b.id.Some? && b.enabled.Some? && b.description.Some?
  }

  /**
    `create_feature_flag`: a body lacking a field is refused; an id already
    present as a key, compared literally, is a conflict; otherwise the flag is
    inserted under the id exactly as supplied and appended to the order.
   */
  function Create(s: Store, b: Body): (out: Step<Flag>)
    ensures out.result.Ok? <==> Complete(b) && b.id.value !in s.flags
    ensures out.result == Err(MissingField) <==> !Complete(b)
    ensures out.result == Err(Conflict) <==> Complete(b) && b.id.value in s.flags
    ensures out.result.Err? ==> out.store == s
    ensures out.result.Ok? ==>
              var k := b.id.value;
              && Complete(b)
              && k !in s.flags
              && out.result.value == Flag(k, b.enabled.value, b.description.value)
              && out.store.flags.Keys == s.flags.Keys + {k}
              && out.store.flags[k] == out.result.value
              && (forall k' :: k' in s.flags ==> out.store.flags[k'] == s.flags[k'])
              && out.store.order == s.order + [k]
    ensures Valid(s) ==> Valid(out.store)
    ensures Valid(s) && out.result.Ok? ==> |out.store.flags| == |s.flags| + 1
  {
    if !Complete(b) then Step(s, Err(MissingField))
    else
      var k := b.id.value;
      if k in s.flags then Step(s, Err(Conflict))
      else
        var f := Flag(k, b.enabled.value, b.description.value);
        Step(Store(s.flags[k := f], s.order + [k]), Ok(f))
  }

  /** A successful create adds its flag at the end of the listing. */
  lemma CreateAppendsToList(s: Store, b: Body)
    requires Valid(s)
    requires Create(s, b).result.Ok?
    ensures List(Create(s, b).store) == List(s) + [Create(s, b).result.value]
  {
    var out := Create(s, b);
    ListOfInsert(s, out.store, b.id.value, out.result.value);
  }

  lemma ListOfInsert(s: Store, s': Store, k: Key, f: Flag)
    requires Valid(s) && Valid(s') && k !in s.flags
    requires s' == Store(s.flags[k := f], s.order + [k])
    ensures List(s') == List(s) + [f]
  {
    var l, l' := List(s), List(s');
    forall i | 0 <= i < |l'| ensures l'[i] == (l + [f])[i] {
      if i < |l| {
        assert s'.order[i] == s.order[i] != k;
      }
    }
  }

  /** A text id that equals a stored integer key in value is not a conflict: both keys coexist. */
  lemma TextIdBesideIntegerKey(s: Store, n: int, enabled: bool, description: string)
    requires Valid(s)
    requires I(n) in s.flags && S(Render(n)) !in s.flags
    ensures Create(s, Body(Some(S(Render(n))), Some(enabled), Some(description))).result.Ok?
    ensures var s' := Create(s, Body(Some(S(Render(n))), Some(enabled), Some(description))).store;
            && I(n) in s'.flags && S(Render(n)) in s'.flags
            && GetFlag(s'.flags, Render(n)) == Some(Flag(S(Render(n)), enabled, description))
  {
  }

  /*
   * Delete
   */

  /** `del` on the order: the key sequence without `k`. */
  function Without(s: seq<Key>, k: Key): (r: seq<Key>)
    ensures forall x :: x in r <==> x in s && x != k
    ensures Distinct(s) ==> Distinct(r)
    ensures k !in s ==> r == s
  {
    if s == [] then []
    else
      DistinctTail(s);
      if s[0] == k then Without(s[1..], k)
      else [s[0]] + Without(s[1..], k)
  }

  /** The position of a key in the order. */
  function IndexOf(s: seq<Key>, k: Key): (i: nat)
    requires k in s
    ensures i < |s| && s[i] == k
    ensures forall j :: 0 <= j < i ==> s[j] != k
  {
    if s[0] == k then 0 else 1 + IndexOf(s[1..], k)
  }

  /** In a distinct order, removing a present key takes out exactly its one position. */
  lemma {:induction false} WithoutAt(s: seq<Key>, k: Key)
    requires Distinct(s) && k in s
    ensures Without(s, k) == s[..IndexOf(s, k)] + s[IndexOf(s, k) + 1..]
  {
    DistinctTail(s);
    var tail := s[1..];
    if s[0] == k {
      assert IndexOf(s, k) == 0;
      calc {
        Without(s, k);
        Without(tail, k);
        tail;
        { assert s[..0] == []; }
        s[..0] + s[0 + 1..];
      }
    } else {
      WithoutAt(tail, k);
      var i := IndexOf(tail, k);
      assert IndexOf(s, k) == i + 1;
      calc {
        Without(s, k);
        [s[0]] + Without(tail, k);
        [s[0]] + (tail[..i] + tail[i + 1..]);
        ([s[0]] + tail[..i]) + tail[i + 1..];
        { assert [s[0]] + tail[..i] == s[..i + 1]; assert tail[i + 1..] == s[i + 2..]; }
        s[..i + 1] + s[i + 2..];
      }
    }
  }

  /**
    The key `delete_feature_flag` removes: the parsed integer key when `t`
    parses and that key is stored, the text key otherwise.
   */
  function DeleteTarget(flags: map<Key, Flag>, t: string): (k: Key)
    ensures IntegerPresent(flags, t) ==> k == I(ParseInt(t).value)
    ensures !IntegerPresent(flags, t) ==> k == S(t)
    ensures GetFlag(flags, t).Some? ==> k in flags
  {
    match ParseInt(t)
    case Some(n) => if I(n) in flags then I(n) else S(t)
    case None => S(t)
  }

  /**
    `delete_feature_flag`: not found when the probe fails; otherwise exactly
    the target key is removed from the map and from the order.
   */
  function Delete(s: Store, t: string): (out: Step<()>)
    ensures out.result.Err? <==> GetFlag(s.flags, t).None?
    ensures out.result.Err? ==> out.result.error == NotFound && out.store == s
    ensures out.result.Ok? ==>
              var k := DeleteTarget(s.flags, t);
              && k in s.flags
              && out.store.flags.Keys == s.flags.Keys - {k}
              && (forall k' :: k' in out.store.flags ==> out.store.flags[k'] == s.flags[k'])
              && out.store.order == Without(s.order, k)
    ensures Valid(s) ==> Valid(out.store)
    ensures Valid(s) && out.result.Ok? ==>
              |out.store.flags| == |s.flags| - 1 && |out.store.order| == |s.order| - 1
  {
    if GetFlag(s.flags, t).None? then Step(s, Err(NotFound))
    else
      var k := DeleteTarget(s.flags, t);
      var s' := Store(s.flags - {k}, Without(s.order, k));
      DeleteShrinks(s, k, s');
      Step(s', Ok(()))
  }

  lemma DeleteShrinks(s: Store, k: Key, s': Store)
    requires k in s.flags
    requires s' == Store(s.flags - {k}, Without(s.order, k))
    ensures Valid(s) ==> Valid(s')
    ensures Valid(s) ==> |s'.flags| == |s.flags| - 1 && |s'.order| == |s.order| - 1
  {
    if Valid(s) {
      SizeIsOrderLength(s);
      SizeIsOrderLength(s');
      WithoutAt(s.order, k);
    }
  }

  /** Deleting keeps the listing order of the remaining flags: one position drops out. */
  lemma DeleteKeepsListOrder(s: Store, t: string)
    requires Valid(s)
    requires Delete(s, t).result.Ok?
    ensures var i := IndexOf(s.order, DeleteTarget(s.flags, t));
            List(Delete(s, t).store) == List(s)[..i] + List(s)[i + 1..]
  {
    var k := DeleteTarget(s.flags, t);
    assert GetFlag(s.flags, t).Some?;
    assert Delete(s, t) == Step(Store(s.flags - {k}, Without(s.order, k)), Ok(()));
    RemovalKeepsListOrder(s, k);
  }

  /** Removing a stored key from map and order drops its position from the listing. */
  lemma RemovalKeepsListOrder(s: Store, k: Key)
    requires Valid(s) && k in s.flags
    ensures var s' := Store(s.flags - {k}, Without(s.order, k));
            var i := IndexOf(s.order, k);
            Valid(s') && List(s') == List(s)[..i] + List(s)[i + 1..]
  {
    var s' := Store(s.flags - {k}, Without(s.order, k));
    var i := IndexOf(s.order, k);
    DeleteShrinks(s, k, s');
    WithoutAt(s.order, k);
    forall k' | k' in s'.order ensures k' in s'.flags && s'.flags[k'] == s.flags[k'] {
      assert k' in s'.flags;
    }
    ProjectRemoval(s.flags, s'.flags, s.order, i);
    assert List(s') == Project(s'.flags, s'.order);
    assert List(s) == Project(s.flags, s.order);
  }

  /**
    Dropping position `i` of the order drops position `i` of the projection,
    provided the remaining keys still map to the same flags.
   */
  lemma ProjectRemoval(flags: map<Key, Flag>, flags': map<Key, Flag>, order: seq<Key>, i: nat)
    requires i < |order| && (forall k :: k in order ==> k in flags)
    requires forall k :: k in order[..i] + order[i + 1..] ==> k in flags' && flags'[k] == flags[k]
    ensures Project(flags', order[..i] + order[i + 1..]) == Project(flags, order)[..i] + Project(flags, order)[i + 1..]
  {
    var o' := order[..i] + order[i + 1..];
    var l, l' := Project(flags, order), Project(flags', o');
    var expected := l[..i] + l[i + 1..];
    forall j | 0 <= j < |l'| ensures l'[j] == expected[j] {
      var j0 := if j < i then j else j + 1;
      assert o'[j] == order[j0];
      assert o'[j] in o';
      assert expected[j] == l[j0];
    }
  }

  /** When only one key form of `t` is stored, delete makes `t` unreachable. */
  lemma DeleteThenLookupOneForm(s: Store, t: string)
    requires TextPresent(s.flags, t) != IntegerPresent(s.flags, t)
    ensures Delete(s, t).result.Ok?
    ensures GetFlag(Delete(s, t).store.flags, t).None?
  {
  }

  /**
    When both key forms of `t` are stored, delete removes the integer key and
    the probe still finds the text-keyed flag afterwards.
   */
  lemma DeleteThenLookupBothForms(s: Store, t: string)
    requires TextPresent(s.flags, t) && IntegerPresent(s.flags, t)
    ensures Delete(s, t).result.Ok?
    ensures I(ParseInt(t).value) !in Delete(s, t).store.flags
    ensures GetFlag(Delete(s, t).store.flags, t) == Some(s.flags[S(t)])
  {
  }

  /*
   * Enable and disable
   */

  /**
    The common body of `enable_feature_flag` and `disable_feature_flag`: the
    flag the probe found gets `enabled := v`; nothing else changes.
   */
  function SetEnabled(s: Store, t: string, v: bool): (out: Step<Flag>)
    ensures out.result.Err? <==> GetFlag(s.flags, t).None?
    ensures out.result.Err? ==> out.result.error == NotFound && out.store == s
    ensures out.store.order == s.order && out.store.flags.Keys == s.flags.Keys
    ensures out.result.Ok? ==>
              var k := Resolve(s.flags, t).value;
              && out.result.value == s.flags[k].(enabled := v)
              && out.store.flags[k] == out.result.value
              && (forall k' :: k' in s.flags && k' != k ==> out.store.flags[k'] == s.flags[k'])
    ensures Valid(s) ==> Valid(out.store)
  {
    match Resolve(s.flags, t)
    case None => Step(s, Err(NotFound))
    case Some(k) =>
      var f := s.flags[k].(enabled := v);
      Step(Store(s.flags[k := f], s.order), Ok(f))
  }

  /** Setting the same value twice is the same as setting it once. */
  lemma SetEnabledIdempotent(s: Store, t: string, v: bool)
    ensures var once := SetEnabled(s, t, v);
            SetEnabled(once.store, t, v) == once
  {
  }

  /** After enable, disable leaves the found flag disabled with its id and description. */
  lemma EnableThenDisable(s: Store, t: string)
    requires GetFlag(s.flags, t).Some?
    ensures var s2 := SetEnabled(SetEnabled(s, t, true).store, t, false);
            var f := GetFlag(s.flags, t).value;
            && s2.result == Ok(f.(enabled := false))
            && GetFlag(s2.store.flags, t) == Some(f.(enabled := false))
  {
  }

  /** Enable then disable of a flag that was disabled restores the whole table. */
  lemma EnableDisableRoundTrip(s: Store, t: string)
    requires GetFlag(s.flags, t).Some? && !GetFlag(s.flags, t).value.enabled
    ensures SetEnabled(SetEnabled(s, t, true).store, t, false).store == s
  {
  }

  /** The listing after enable or disable differs only in the found flag's `enabled`. */
  lemma SetEnabledKeepsList(s: Store, t: string, v: bool)
    requires Valid(s)
    ensures var out := SetEnabled(s, t, v);
            && |List(out.store)| == |List(s)|
            && forall i :: 0 <= i < |List(s)| ==>
                 List(out.store)[i] ==
                   if out.result.Ok? && s.order[i] == out.result.value.id
                   then List(s)[i].(enabled := v) else List(s)[i]
  {
  }

  /*
   * Scenarios
   */

  /** Disabling a seed flag by its text id. */
  lemma SeedDisable()
    ensures SetEnabled(Seed(), "beta_dashboard", false).result ==
              Ok(Flag(S("beta_dashboard"), false, "Enable access to the new dashboard"))
  {
  }

  /** A body with only an id is refused as missing fields. */
  lemma SeedMissingFields()
    ensures Create(Seed(), Body(Some(S("x")), None, None)) == Step(Seed(), Err(MissingField))
  {
  }

  /** Creating a seed id again is a conflict. */
  lemma SeedDuplicate()
    ensures Create(Seed(), Body(Some(S("beta_dashboard")), Some(true), Some("dup"))) == Step(Seed(), Err(Conflict))
  {
  }

  /** Deleting an id stored under neither form is not found. */
  lemma SeedDeleteUnknown()
    ensures Delete(Seed(), "999") == Step(Seed(), Err(NotFound))
  {
  }

}
