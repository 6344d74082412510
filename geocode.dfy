/**
 * The response-parsing half of `get_location_info` in locator.py: given what the HTTP
 * exchange with the reverse-geocoding endpoint produced, pick the state
 * (`administrative_area_level_1`) and the LGA (`administrative_area_level_2`) out of the
 * first result's address components.
 */
module Geocode {
  import opened Wrappers

  const OkStatus := "OK"
  const StateType := "administrative_area_level_1"
  const LgaType := "administrative_area_level_2"

  /** One entry of `address_components`: its `types` list and its `long_name`. */
  datatype Component = Component(types: seq<string>, longName: string)

  /** One entry of the response's `results` list. */
  datatype Place = Place(addressComponents: seq<Component>)

  /** The decoded JSON body: the top-level `status` and the `results` list. */
  datatype Response = Response(status: string, results: seq<Place>)

  /**
   * What one request produced: a decoded body, or a failure the request library
   * raised (connection error, a non-2xx status turned into an exception by
   * `raise_for_status`, a body that is not JSON).
   */
  datatype Fetch = Received(response: Response) | RequestFailed

  /** The user-visible message `get_location_info` emits, if any. */
  datatype Notice =
    | Quiet                       // status "OK": nothing is shown
    | ApiWarning(status: string)  // `st.warning` quoting the literal status
    | RequestError                // `st.error` for a failed request

  /** The pair `(state, lga)` that `get_location_info` returns. */
  datatype Areas = Areas(state: Option<string>, lga: Option<string>)

  /** The response shapes the source handles: an "OK" body has at least one result. */
  predicate WellFormed(f: Fetch) {
    f.Received? && f.response.status == OkStatus ==> |f.response.results| > 0
  }

  type WellFormedFetch = f: Fetch | WellFormed(f) witness RequestFailed

  /** The `long_name` of the last component whose types contain `t`, if there is one. */
  function LastWithType(cs: seq<Component>, t: string): Option<string> {
    if cs == [] then None
    else if t in cs[|cs| - 1].types then Some(cs[|cs| - 1].longName)
    else LastWithType(cs[..|cs| - 1], t)
  }

  /** True when `cs[i]` carries type `t` and no later component does. */
  ghost predicate IsLastMatch(cs: seq<Component>, t: string, i: int) {
    0 <= i < |cs| && t in cs[i].types && forall j | i < j < |cs| :: t !in cs[j].types
  }

  /** The pair `get_location_info` returns for what the request produced. */
  function ResolvedAreas(f: WellFormedFetch): Areas {
    if f.Received? && f.response.status == OkStatus then
      var cs := f.response.results[0].addressComponents;
      Areas(LastWithType(cs, StateType), LastWithType(cs, LgaType))
    else
      Areas(None, None)
  }

  /** The message `get_location_info` shows for what the request produced. */
  function NoticeOf(f: Fetch): Notice {
    match f
    case RequestFailed => RequestError
    case Received(r) => if r.status == OkStatus then Quiet else ApiWarning(r.status)
  }

  /**
   * The scan over the address components: two independent tests per component, each
   * overwriting its field, so the last matching component wins for each field.
   */
  method ScanComponents(components: seq<Component>) returns (state: Option<string>, lga: Option<string>)
    ensures state == LastWithType(components, StateType)
    ensures lga == LastWithType(components, LgaType)
  {
    state, lga := None, None;
    for i := 0 to |components|
      invariant state == LastWithType(components[..i], StateType)
      invariant lga == LastWithType(components[..i], LgaType)
    {
      var component := components[i];
      assert components[..i + 1][..i] == components[..i];
      if StateType in component.types {
        state := Some(component.longName);
      }
      if LgaType in component.types {
        lga := Some(component.longName);
      }
    }
    assert components[..|components|] == components;
  }

  /**
   * `get_location_info` after the request: an "OK" status yields the scanned pair; any
   * other status yields `(None, None)` with a warning; a failed request yields
   * `(None, None)` with an error. Nothing is raised to the caller.
   */
  method GetLocationInfo(f: Fetch) returns (state: Option<string>, lga: Option<string>, notice: Notice)
    requires WellFormed(f)
    ensures Areas(state, lga) == ResolvedAreas(f) && notice == NoticeOf(f)
    ensures f.RequestFailed? ==> state == None && lga == None && notice == RequestError
    ensures f.Received? && f.response.status != OkStatus ==>
              state == None && lga == None && notice == ApiWarning(f.response.status)
    ensures f.Received? && f.response.status == OkStatus ==> notice == Quiet
  {
    match f
    case RequestFailed =>
      state, lga, notice := None, None, RequestError;
    case Received(data) =>
      if data.status == OkStatus {
        state, lga := ScanComponents(data.results[0].addressComponents);
        notice := Quiet;
      } else {
        state, lga, notice := None, None, ApiWarning(data.status);
      }
  }

  /**
   * `LastWithType` is "last match wins": it is `None` exactly when no component carries
   * the type, and otherwise the name of the last component that does.
   */
  lemma {:induction false} LastWithTypeIsLastMatch(cs: seq<Component>, t: string)
    ensures LastWithType(cs, t) == None <==> forall i | 0 <= i < |cs| :: t !in cs[i].types
    ensures forall i | IsLastMatch(cs, t, i) :: LastWithType(cs, t) == Some(cs[i].longName)
  {
    if cs != [] {
      var init := cs[..|cs| - 1];
      LastWithTypeIsLastMatch(init, t);
      assert forall i | 0 <= i < |init| :: init[i] == cs[i];
      forall i | IsLastMatch(cs, t, i)
        ensures LastWithType(cs, t) == Some(cs[i].longName)
      {
        if i < |cs| - 1 {
          assert IsLastMatch(init, t, i);
        }
      }
    }
  }

  /**
   * On an "OK" response each field is found independently: the state is the name of the
   * last component typed `administrative_area_level_1`, or `None` if there is none, and
   * likewise the LGA for `administrative_area_level_2`.
   */
  lemma OkResponseFields(f: WellFormedFetch, i: int)
    requires f.Received? && f.response.status == OkStatus
    ensures var cs := f.response.results[0].addressComponents;
      && (ResolvedAreas(f).state == None <==> forall k | 0 <= k < |cs| :: StateType !in cs[k].types)
      && (ResolvedAreas(f).lga == None <==> forall k | 0 <= k < |cs| :: LgaType !in cs[k].types)
      && (IsLastMatch(cs, StateType, i) ==> ResolvedAreas(f).state == Some(cs[i].longName))
      && (IsLastMatch(cs, LgaType, i) ==> ResolvedAreas(f).lga == Some(cs[i].longName))
  {
    var cs := f.response.results[0].addressComponents;
    LastWithTypeIsLastMatch(cs, StateType);
    LastWithTypeIsLastMatch(cs, LgaType);
  }

  /** A single component carrying both types, with no later one carrying either, sets both fields. */
  lemma {:induction false} OneComponentSetsBoth(cs: seq<Component>, i: int)
    requires 0 <= i < |cs| && StateType in cs[i].types && LgaType in cs[i].types
    requires forall j | i < j < |cs| :: StateType !in cs[j].types && LgaType !in cs[j].types
    ensures LastWithType(cs, StateType) == Some(cs[i].longName)
    ensures LastWithType(cs, LgaType) == Some(cs[i].longName)
  {
    LastWithTypeIsLastMatch(cs, StateType);
    LastWithTypeIsLastMatch(cs, LgaType);
  }

  /** The worked example: a state component followed by a county component. */
  lemma SantaClaraExample()
    ensures ResolvedAreas(Received(Response(OkStatus, [Place([
              Component([StateType], "California"),
              Component([LgaType], "Santa Clara County")])])))
            == Areas(Some("California"), Some("Santa Clara County"))
  {
    var cs := [Component([StateType], "California"), Component([LgaType], "Santa Clara County")];
    assert StateType != LgaType by { assert StateType[26] != LgaType[26]; }
    assert cs[..1] == [cs[0]];
    assert LastWithType(cs, StateType) == Some("California");
  }
}
