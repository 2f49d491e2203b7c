/**
  The service's module-level `feature_flags` dictionary and its handlers.

  The dictionary is shared state that the handlers change in place, so it is a
  class: `flags` holds the entries and `order` the keys in insertion order.
  Every handler that changes it is a method whose new state and outcome are
  exactly what the matching `FlagTable` function computes.
 */
module App {
  import opened Optional
  import opened Keys
  import opened FlagTable

  class FeatureFlags {
    var flags: map<Key, Flag>
    var order: seq<Key>

    function State(): Store
      reads this
    {
      Store(flags, order)
    }

    ghost predicate Valid()
      reads this
    {
      FlagTable.Valid(State())
    }

    /** The dictionary as the process starts: the two seed flags. */
    constructor ()
      ensures Valid() && State() == Seed()
    {
      flags := Seed().flags;
      order := Seed().order;
    }

    /** `GET /featureflags`: the stored flags in insertion order. */
    function ListFeatureFlags(): (r: seq<Flag>)
      reads this
      requires Valid()
      ensures |r| == |flags| == |order|
      ensures forall i :: 0 <= i < |r| ==> r[i] == flags[order[i]]
      ensures forall f :: f in r <==> f in flags.Values
    {
      List(State())
    }

    /** `GET /featureflags/<t>`: the flag the two-step probe finds, or not found. */
    function GetFeatureFlagById(t: string): (r: Result<Flag>)
      reads this
      requires Valid()
      ensures r.Err? <==> Resolve(flags, t).None?
      ensures r.Err? ==> r.error == NotFound
      ensures r.Ok? ==> r.value.id in flags && flags[r.value.id] == r.value
      ensures r.Ok? ==> r.value.id == S(t) || (S(t) !in flags && r.value.id == I(ParseInt(t).value))
    {
      match GetFlag(flags, t)
      case None => Err(NotFound)
      case Some(f) => Ok(f)
    }

    /** `POST /featureflags`. */
    method CreateFeatureFlag(b: Body) returns (r: Result<Flag>)
      requires Valid()
      modifies this
      ensures Valid()
      ensures Step(State(), r) == Create(old(State()), b)
    {
      if b.id.None? || b.enabled.None? || b.description.None? {
        return Err(MissingField);
      }
      var id := b.id.value;
      if id in flags {
        return Err(Conflict);
      }
      flags := flags[id := Flag(id, b.enabled.value, b.description.value)];
      order := order + [id];
      r := Ok(flags[id]);
    }

    /** Python's `del feature_flags[k]`, which raises when `k` is not a key. */
    method Del(k: Key)
      requires k in flags
      modifies this
      ensures flags == old(flags) - {k} && order == Without(old(order), k)
    {
      flags := flags - {k};
      order := Without(order, k);
    }

    /** `DELETE /featureflags/<t>`. */
    method DeleteFeatureFlag(t: string) returns (r: Result<()>)
      requires Valid()
      modifies this
      ensures Valid()
      ensures Step(State(), r) == Delete(old(State()), t)
    {
      var flag := GetFlag(flags, t);
      if flag.None? {
        return Err(NotFound);
      }
      match ParseInt(t) {
        case Some(n) =>
          if I(n) in flags {
            Del(I(n));
          } else {
            Del(S(t));
          }
        case None =>
          Del(S(t));
      }
      r := Ok(());
    }

    /** Sets `enabled` on the flag the probe finds, in place. */
    method SetEnabled(t: string, v: bool) returns (r: Result<Flag>)
      requires Valid()
      modifies this
      ensures Valid()
      ensures Step(State(), r) == FlagTable.SetEnabled(old(State()), t, v)
    {
      var k := Resolve(flags, t);
      if k.None? {
        return Err(NotFound);
      }
      var flag := flags[k.value];
      flag := flag.(enabled := v);
      flags := flags[k.value := flag];
      r := Ok(flag);
    }

    /** `POST /featureflags/<t>/enable`. */
    method EnableFeatureFlag(t: string) returns (r: Result<Flag>)
      requires Valid()
      modifies this
      ensures Valid()
      ensures Step(State(), r) == FlagTable.SetEnabled(old(State()), t, true)
    {
      r := SetEnabled(t, true);
    }

    /** `POST /featureflags/<t>/disable`. */
    method DisableFeatureFlag(t: string) returns (r: Result<Flag>)
      requires Valid()
      modifies this
      ensures Valid()
      ensures Step(State(), r) == FlagTable.SetEnabled(old(State()), t, false)
    {
      r := SetEnabled(t, false);
    }
  }

  /** Request scenarios against a freshly started process. */
  method SeedSession() {
    var app := new FeatureFlags();
    var r := app.DisableFeatureFlag("beta_dashboard");
    assert r == Ok(Flag(S("beta_dashboard"), false, "Enable access to the new dashboard"));
    assert app.flags.Keys == {S("beta_dashboard"), S("live_chat")};
    r := app.CreateFeatureFlag(Body(Some(S("x")), None, None));
    assert r == Err(MissingField);
    DuplicateId(app);
    UnknownId(app);
  }

  method DuplicateId(app: FeatureFlags)
    requires app.Valid() && app.flags.Keys == {S("beta_dashboard"), S("live_chat")}
    modifies app
    ensures app.Valid() && app.flags.Keys == {S("beta_dashboard"), S("live_chat")}
  {
    var r := app.CreateFeatureFlag(Body(Some(S("beta_dashboard")), Some(true), Some("dup")));
    assert r == Err(Conflict);
  }

  method UnknownId(app: FeatureFlags)
    requires app.Valid() && app.flags.Keys == {S("beta_dashboard"), S("live_chat")}
    modifies app
  {
    assert Resolve(app.flags, "999").None?;
    var d := app.DeleteFeatureFlag("999");
    assert d == Err(NotFound);
  }

  /**
    A stand-alone example on any dictionary without `"7"` or `7`: a flag created
    with an integer id is reached, and deleted, through its text form.
   */
  method IntegerIdSession(app: FeatureFlags)
    requires app.Valid() && S("7") !in app.flags && I(7) !in app.flags
    modifies app
  {
    var r := app.CreateFeatureFlag(Body(Some(I(7)), Some(false), Some("seven")));
    assert r == Ok(Flag(I(7), false, "seven"));
    assert I(7) in app.flags && S("7") !in app.flags;
    ParseRender(7);
    assert Render(7) == "7";
    var g := app.GetFeatureFlagById("7");
    assert g == r;
    IntegerIdDelete(app);
  }

  /** A stand-alone example: deleting `"7"` when only the integer key `7` is stored. */
  method IntegerIdDelete(app: FeatureFlags)
    requires app.Valid() && S("7") !in app.flags && I(7) in app.flags
    modifies app
  {
    ParseRender(7);
    assert Render(7) == "7";
    var d := app.DeleteFeatureFlag("7");
    assert d == Ok(());
    assert S("7") !in app.flags && I(7) !in app.flags;
    var g := app.GetFeatureFlagById("7");
    assert g == Err(NotFound);
  }
}
