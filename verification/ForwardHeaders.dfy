/** The headers that one websocket session adds to each tunneled request that does not carry them. */
module ForwardHeaders {
  import opened Collections
  import opened HttpHeader

  /** A tunneled HTTP/2 request; `rest` stands for all but its headers. */
  class Request {
    var header: Option<Header>
    const rest: nat

    constructor (header: Option<Header>, rest: nat)
      ensures this.header == header && this.rest == rest
    {
      this.header, this.rest := header, rest;
    }

    method Clone() returns (copy: Request)
      ensures fresh(copy) && copy.header == header && copy.rest == rest
    {
      copy := new Request(header, rest);
    }
  }

  // ---- Building the forward set ----

  /** The four forwarded keys, and where the two ids are looked for. */
  datatype Naming = Naming(
    requestId: string,
    correlationId: string,
    traceParent: string,
    traceState: string,
    requestIdSources: seq<string>,
    correlationIdSources: seq<string>)

  const BRIDGE_NAMES := Naming(
    "x-request-id", "x-correlation-id", "traceparent", "tracestate",
    ["X-Request-Id", "X-Request-ID", "X-Correlation-Id", "X-Correlation-ID"],
    ["X-Correlation-Id", "X-Correlation-ID"])

  /** The valid span of a session's context, its parts already written out in hexadecimal. */
  datatype Span = Span(traceId: string, spanId: string, flags: string, state: string)

  function TraceParentOf(span: Option<Span>): string {
    if span.None? then ""
    else "00-" + span.value.traceId + "-" + span.value.spanId + "-" + span.value.flags
  }

  function TraceStateOf(span: Option<Span>): string {
    if span.None? then "" else TrimSpace(span.value.state)
  }

  function CandidateValue(header: Option<Header>, name: string): string {
    if name == "" then "" else TrimSpace(Get(header, name))
  }

  /** The first of several headers that is not blank, trimmed; nothing when all are blank. */
  function FirstNonBlank(header: Option<Header>, names: seq<string>): string
    decreases names
  {
    if names == [] then ""
    else if CandidateValue(header, names[0]) != "" then CandidateValue(header, names[0])
    else FirstNonBlank(header, names[1..])
  }

  function Or(value: string, fallback: string): string {
    if value != "" then value else fallback
  }

  lemma NextCandidate(header: Option<Header>, names: seq<string>, n: nat)
    requires n < |names|
    ensures FirstNonBlank(header, names[n..])
            == Or(CandidateValue(header, names[n]), FirstNonBlank(header, names[n + 1..]))
  {
    assert names[n..][1..] == names[n + 1..];
  }

  lemma {:induction false} FirstNonBlankIsNotBlank(header: Option<Header>, names: seq<string>)
    ensures FirstNonBlank(header, names) != "" ==> !IsBlank(FirstNonBlank(header, names))
    ensures TrimSpace(FirstNonBlank(header, names)) == FirstNonBlank(header, names)
    decreases names
  {
    if names != [] {
      FirstNonBlankIsNotBlank(header, names[1..]);
      if names[0] != "" {
        TrimDecidesBlank(Get(header, names[0]));
        TrimDecidesBlank(TrimSpace(Get(header, names[0])));
      }
    }
  }

  function Trimmed(names: seq<string>): seq<string> {
    seq(|names|, i requires 0 <= i < |names| => TrimSpace(names[i]))
  }

  method ResolveBridgeHeaderValue(header: Option<Header>, names: seq<string>) returns (value: string)
    ensures value == FirstNonBlank(header, Trimmed(names))
  {
    if header.None? {
      FirstOfNothing(header, Trimmed(names));
      return "";
    }
    ghost var sources := Trimmed(names);
    assert sources[0..] == sources;
    for n := 0 to |names|
      invariant |sources| == |names| && FirstNonBlank(header, sources[n..]) == FirstNonBlank(header, sources)
    {
      NextCandidate(header, sources, n);
      var name := TrimSpace(names[n]);
      if name == "" {
        continue;
      }
      value := TrimSpace(Get(header, name));
      if value != "" {
        return value;
      }
    }
    return "";
  }

  lemma {:induction false} FirstOfNothing(header: Option<Header>, names: seq<string>)
    requires header.None?
    ensures FirstNonBlank(header, names) == ""
    decreases names
  {
    if names != [] {
      FirstOfNothing(header, names[1..]);
    }
  }

  ghost predicate NoneEmpty(sources: seq<string>) {
    forall i :: 0 <= i < |sources| ==> sources[i] != ""
  }

  method GetRequestId(header: Option<Header>, names: seq<string>) returns (value: string)
    requires NoneEmpty(names)
    ensures value == FirstNonBlank(header, names)
  {
    assert names[0..] == names;
    for n := 0 to |names|
      invariant FirstNonBlank(header, names[n..]) == FirstNonBlank(header, names)
    {
      NextCandidate(header, names, n);
      value := TrimSpace(Get(header, names[n]));
      if value != "" {
        return value;
      }
    }
    return "";
  }

  // ---- What a session forwards under each key ----

  /** The value under a canonical key when the trace headers fall back to the given ones. */
  function ValueFor(names: Naming, header: Option<Header>, parent: string, state: string, key: string): string {
    if key == CanonicalHeaderKey(names.requestId) then
      FirstNonBlank(header, names.requestIdSources)
    else if key == CanonicalHeaderKey(names.correlationId) then
      Or(FirstNonBlank(header, names.correlationIdSources), FirstNonBlank(header, names.requestIdSources))
    else if key == CanonicalHeaderKey(names.traceParent) then
      Or(FirstNonBlank(header, [names.traceParent]), parent)
    else if key == CanonicalHeaderKey(names.traceState) then
      Or(FirstNonBlank(header, [names.traceState]), state)
    else ""
  }

  /** The value forwarded under a canonical key, or nothing. */
  function ForwardedValue(names: Naming, header: Option<Header>, span: Option<Span>, key: string): string {
    ValueFor(names, header, TraceParentOf(span), TraceStateOf(span), key)
  }

  /** A forward set holds exactly the values that are there, one for each key. */
  ghost predicate IsForwardSet(forward: Header, names: Naming, header: Option<Header>, span: Option<Span>) {
    forall key :: StoresExactly(forward, key, ForwardedValue(names, header, span, key))
  }

  ghost predicate IsSetWith(forward: Header, names: Naming, header: Option<Header>, parent: string, state: string) {
    forall key :: StoresExactly(forward, key, ValueFor(names, header, parent, state, key))
  }

  ghost predicate StoresExactly(forward: Header, key: string, value: string) {
    (key in forward <==> value != "") && (key in forward ==> forward[key] == [value])
  }

  ghost predicate KeysDiffer(names: Naming) {
    && CanonicalHeaderKey(names.requestId) != CanonicalHeaderKey(names.correlationId)
    && CanonicalHeaderKey(names.requestId) != CanonicalHeaderKey(names.traceParent)
    && CanonicalHeaderKey(names.requestId) != CanonicalHeaderKey(names.traceState)
    && CanonicalHeaderKey(names.correlationId) != CanonicalHeaderKey(names.traceParent)
    && CanonicalHeaderKey(names.correlationId) != CanonicalHeaderKey(names.traceState)
    && CanonicalHeaderKey(names.traceParent) != CanonicalHeaderKey(names.traceState)
  }

  ghost predicate IsTrimmed(name: string) {
    name != "" && TrimSpace(name) == name
  }

  ghost predicate AllTrimmed(sources: seq<string>) {
    forall i :: 0 <= i < |sources| ==> IsTrimmed(sources[i])
  }

  /** The four keys are different, and white space does not hide a name. */
  ghost predicate IsUsable(names: Naming) {
    && KeysDiffer(names)
    && NoneEmpty(names.requestIdSources) && AllTrimmed(names.correlationIdSources)
    && IsTrimmed(names.traceParent) && IsTrimmed(names.traceState)
  }

  lemma TrimKeeps(s: string)
    requires s != "" && !IsSpace(s[0]) && !IsSpace(s[|s| - 1])
    ensures IsTrimmed(s)
  {
  }

  /** The canonical keys have different lengths. */
  lemma BridgeKeysDiffer()
    ensures KeysDiffer(BRIDGE_NAMES)
  {
    CanonicalTwice(BRIDGE_NAMES.requestId);
    CanonicalTwice(BRIDGE_NAMES.correlationId);
    CanonicalTwice(BRIDGE_NAMES.traceParent);
    CanonicalTwice(BRIDGE_NAMES.traceState);
  }

  lemma SourcesAreTrimmed()
    ensures NoneEmpty(BRIDGE_NAMES.requestIdSources) && AllTrimmed(BRIDGE_NAMES.correlationIdSources)
  {
    TrimKeeps(BRIDGE_NAMES.correlationIdSources[0]);
    TrimKeeps(BRIDGE_NAMES.correlationIdSources[1]);
  }

  lemma TraceKeysAreTrimmed()
    ensures IsTrimmed(BRIDGE_NAMES.traceParent) && IsTrimmed(BRIDGE_NAMES.traceState)
  {
    TrimKeeps(BRIDGE_NAMES.traceParent);
    TrimKeeps(BRIDGE_NAMES.traceState);
  }

  lemma BridgeNamesAreUsable()
    ensures IsUsable(BRIDGE_NAMES)
  {
    BridgeKeysDiffer();
    SourcesAreTrimmed();
    TraceKeysAreTrimmed();
  }

  /** Store one value under a canonical key, replacing what was there. */
  function Put(forward: Header, canonical: string, value: string): Header {
    if value == "" then forward else forward[canonical := [value]]
  }

  function SetHeader(forward: Header, key: string, value: string): Header {
    Put(forward, CanonicalHeaderKey(key), value)
  }

  lemma PutStores(forward: Header, canonical: string, value: string)
    requires canonical !in forward
    ensures StoresExactly(Put(forward, canonical, value), canonical, value)
    ensures forall key :: key != canonical ==> (key in Put(forward, canonical, value) <==> key in forward)
    ensures forall key :: key != canonical && key in forward ==> Put(forward, canonical, value)[key] == forward[key]
  {
  }

  /** The value under one key of a set put together from four. */
  function OneOfFour(key: string, k1: string, v1: string, k2: string, v2: string, k3: string, v3: string, k4: string,
                     v4: string): string {
    if key == k1 then v1 else if key == k2 then v2 else if key == k3 then v3 else if key == k4 then v4 else ""
  }

  lemma FourPuts(k1: string, v1: string, k2: string, v2: string, k3: string, v3: string, k4: string, v4: string)
    requires k1 != k2 && k1 != k3 && k1 != k4 && k2 != k3 && k2 != k4 && k3 != k4
    ensures var forward := Put(Put(Put(Put(map[], k1, v1), k2, v2), k3, v3), k4, v4);
            forall key :: StoresExactly(forward, key, OneOfFour(key, k1, v1, k2, v2, k3, v3, k4, v4))
  {
    PutStores(map[], k1, v1);
    PutStores(Put(map[], k1, v1), k2, v2);
    PutStores(Put(Put(map[], k1, v1), k2, v2), k3, v3);
    PutStores(Put(Put(Put(map[], k1, v1), k2, v2), k3, v3), k4, v4);
  }

  lemma FourValues(names: Naming, header: Option<Header>, key: string)
    ensures ValueFor(names, header, "", "", key) ==
            OneOfFour(key,
              CanonicalHeaderKey(names.requestId), FirstNonBlank(header, names.requestIdSources),
              CanonicalHeaderKey(names.correlationId),
              Or(FirstNonBlank(header, names.correlationIdSources), FirstNonBlank(header, names.requestIdSources)),
              CanonicalHeaderKey(names.traceParent), FirstNonBlank(header, [names.traceParent]),
              CanonicalHeaderKey(names.traceState), FirstNonBlank(header, [names.traceState]))
  {
  }

  lemma SourcesStayThemselves(names: Naming)
    requires IsUsable(names)
    ensures Trimmed(names.correlationIdSources) == names.correlationIdSources
    ensures Trimmed([names.traceParent]) == [names.traceParent] && Trimmed([names.traceState]) == [names.traceState]
  {
  }

  /** What the request's own headers amount to. */
  lemma RequestSupplies(names: Naming, header: Option<Header>)
    requires KeysDiffer(names)
    ensures var requestId := FirstNonBlank(header, names.requestIdSources);
            var withId := SetHeader(map[], names.requestId, requestId);
            var correlationId := Or(FirstNonBlank(header, names.correlationIdSources), requestId);
            var withIds := SetHeader(withId, names.correlationId, correlationId);
            var withParent := SetHeader(withIds, names.traceParent, FirstNonBlank(header, [names.traceParent]));
            var all := SetHeader(withParent, names.traceState, FirstNonBlank(header, [names.traceState]));
            IsSetWith(all, names, header, "", "")
  {
    var requestId := FirstNonBlank(header, names.requestIdSources);
    FourPuts(
      CanonicalHeaderKey(names.requestId), requestId,
      CanonicalHeaderKey(names.correlationId), Or(FirstNonBlank(header, names.correlationIdSources), requestId),
      CanonicalHeaderKey(names.traceParent), FirstNonBlank(header, [names.traceParent]),
      CanonicalHeaderKey(names.traceState), FirstNonBlank(header, [names.traceState]));
    forall key
      ensures ValueFor(names, header, "", "", key) ==
            OneOfFour(key,
              CanonicalHeaderKey(names.requestId), requestId,
              CanonicalHeaderKey(names.correlationId), Or(FirstNonBlank(header, names.correlationIdSources), requestId),
              CanonicalHeaderKey(names.traceParent), FirstNonBlank(header, [names.traceParent]),
              CanonicalHeaderKey(names.traceState), FirstNonBlank(header, [names.traceState]))
    {
      FourValues(names, header, key);
    }
  }

  /** The part of the set that the upgrade request itself supplies. */
  method HeadersFromRequest(names: Naming, header: Option<Header>) returns (forward: Header)
    requires IsUsable(names)
    ensures IsSetWith(forward, names, header, "", "")
  {
    var requestId := GetRequestId(header, names.requestIdSources);
    FirstNonBlankIsNotBlank(header, names.requestIdSources);
    requestId := TrimSpace(requestId);
    forward := SetHeader(map[], names.requestId, requestId);
    var correlationId := ResolveBridgeHeaderValue(header, names.correlationIdSources);
    if correlationId == "" {
      correlationId := requestId;
    }
    forward := SetHeader(forward, names.correlationId, correlationId);
    var traceParent := ResolveBridgeHeaderValue(header, [names.traceParent]);
    forward := SetHeader(forward, names.traceParent, traceParent);
    var traceState := ResolveBridgeHeaderValue(header, [names.traceState]);
    forward := SetHeader(forward, names.traceState, traceState);
    SourcesStayThemselves(names);
    RequestSupplies(names, header);
  }

  lemma NothingFromNoRequest(names: Naming)
    ensures IsSetWith(map[], names, None, "", "")
  {
    FirstOfNothing(None, names.requestIdSources);
    FirstOfNothing(None, names.correlationIdSources);
    FirstOfNothing(None, [names.traceParent]);
    FirstOfNothing(None, [names.traceState]);
  }

  function WithFallback(forward: Header, key: string, value: string): Header {
    if IsBlank(Get(Some(forward), key)) then SetHeader(forward, key, value) else forward
  }

  /** Fill a trace header from the session's span if the request left it blank. */
  method HeaderFromSpan(forward: Header, key: string, value: string) returns (forward': Header)
    ensures forward' == WithFallback(forward, key, value)
  {
    TrimDecidesBlank(Get(Some(forward), key));
    forward' := forward;
    if TrimSpace(Get(Some(forward), key)) == "" {
      if value != "" {
        forward' := SetHeader(forward, key, value);
      }
    }
  }

  /** A key that holds its own value or nothing holds the fallback afterwards exactly when it held nothing. */
  lemma FallbackStores(forward: Header, key: string, value: string, fallback: string)
    requires StoresExactly(forward, CanonicalHeaderKey(key), value) && (value != "" ==> !IsBlank(value))
    ensures StoresExactly(WithFallback(forward, key, fallback), CanonicalHeaderKey(key), Or(value, fallback))
  {
  }

  lemma FallbackKeepsOthers(forward: Header, key: string, fallback: string, other: string, value: string)
    requires StoresExactly(forward, other, value) && other != CanonicalHeaderKey(key)
    ensures StoresExactly(WithFallback(forward, key, fallback), other, value)
  {
  }

  lemma ParentFilled(names: Naming, header: Option<Header>, forward: Header, parent: string)
    requires KeysDiffer(names) && IsSetWith(forward, names, header, "", "")
    ensures IsSetWith(WithFallback(forward, names.traceParent, parent), names, header, parent, "")
  {
    var forward', parentKey := WithFallback(forward, names.traceParent, parent), CanonicalHeaderKey(names.traceParent);
    FirstNonBlankIsNotBlank(header, [names.traceParent]);
    forall key
      ensures StoresExactly(forward', key, ValueFor(names, header, parent, "", key))
    {
      assert StoresExactly(forward, key, ValueFor(names, header, "", "", key));
      if key == parentKey {
        FallbackStores(forward, names.traceParent, FirstNonBlank(header, [names.traceParent]), parent);
      } else {
        FallbackKeepsOthers(forward, names.traceParent, parent, key, ValueFor(names, header, "", "", key));
      }
    }
  }

  lemma StateFilled(names: Naming, header: Option<Header>, forward: Header, parent: string, state: string)
    requires KeysDiffer(names) && IsSetWith(forward, names, header, parent, "")
    ensures IsSetWith(WithFallback(forward, names.traceState, state), names, header, parent, state)
  {
    var forward', stateKey := WithFallback(forward, names.traceState, state), CanonicalHeaderKey(names.traceState);
    FirstNonBlankIsNotBlank(header, [names.traceState]);
    forall key
      ensures StoresExactly(forward', key, ValueFor(names, header, parent, state, key))
    {
      assert StoresExactly(forward, key, ValueFor(names, header, parent, "", key));
      if key == stateKey {
        FallbackStores(forward, names.traceState, FirstNonBlank(header, [names.traceState]), state);
      } else {
        FallbackKeepsOthers(forward, names.traceState, state, key, ValueFor(names, header, parent, "", key));
      }
    }
  }

  method BuildBridgeForwardHeaders(names: Naming, r: Request?, span: Option<Span>) returns (forward: Header)
    requires IsUsable(names)
    ensures IsForwardSet(forward, names, if r == null then None else r.header, span)
  {
    ghost var header := if r == null then None else r.header;
    if r == null {
      forward := map[];
      NothingFromNoRequest(names);
    } else {
      forward := HeadersFromRequest(names, r.header);
    }
    ParentFilled(names, header, forward, TraceParentOf(span));
    forward := HeaderFromSpan(forward, names.traceParent, TraceParentOf(span));
    StateFilled(names, header, forward, TraceParentOf(span), TraceStateOf(span));
    forward := HeaderFromSpan(forward, names.traceState, TraceStateOf(span));
    SetOfSpan(names, header, span, forward);
  }

  lemma SetOfSpan(names: Naming, header: Option<Header>, span: Option<Span>, forward: Header)
    requires IsSetWith(forward, names, header, TraceParentOf(span), TraceStateOf(span))
    ensures IsForwardSet(forward, names, header, span)
  {
  }

  // ---- What every forward set is like ----

  /** Keys are canonical, and each holds one value that is not blank. */
  ghost predicate IsWellFormedSet(forward: Header) {
    forall key :: key in forward ==>
      CanonicalHeaderKey(key) == key && |forward[key]| == 1 && !IsBlank(forward[key][0])
  }

  lemma SpanValuesAreNotBlank(span: Option<Span>)
    ensures NothingOrNotBlank(TraceParentOf(span)) && NothingOrNotBlank(TraceStateOf(span))
  {
    if span.Some? {
      assert TraceParentOf(span)[0] == '0';
      TrimDecidesBlank(span.value.state);
      TrimDecidesBlank(TraceStateOf(span));
    }
  }

  ghost predicate NothingOrNotBlank(value: string) {
    value != "" ==> !IsBlank(value)
  }

  lemma FoundIsNotBlank(header: Option<Header>, names: seq<string>, fallback: string)
    requires NothingOrNotBlank(fallback)
    ensures NothingOrNotBlank(FirstNonBlank(header, names))
            && NothingOrNotBlank(Or(FirstNonBlank(header, names), fallback))
  {
    FirstNonBlankIsNotBlank(header, names);
  }

  lemma ValuesAreNotBlank(names: Naming, header: Option<Header>, parent: string, state: string, key: string)
    requires NothingOrNotBlank(parent) && NothingOrNotBlank(state)
    ensures NothingOrNotBlank(ValueFor(names, header, parent, state, key))
  {
    if key == CanonicalHeaderKey(names.requestId) {
      FoundIsNotBlank(header, names.requestIdSources, "");
    } else if key == CanonicalHeaderKey(names.correlationId) {
      FoundIsNotBlank(header, names.requestIdSources, "");
      FoundIsNotBlank(header, names.correlationIdSources, FirstNonBlank(header, names.requestIdSources));
    } else if key == CanonicalHeaderKey(names.traceParent) {
      FoundIsNotBlank(header, [names.traceParent], parent);
    } else if key == CanonicalHeaderKey(names.traceState) {
      FoundIsNotBlank(header, [names.traceState], state);
    }
  }

  lemma KeysAreCanonical(names: Naming, header: Option<Header>, parent: string, state: string, key: string)
    requires ValueFor(names, header, parent, state, key) != ""
    ensures CanonicalHeaderKey(key) == key
  {
    CanonicalTwice(names.requestId);
    CanonicalTwice(names.correlationId);
    CanonicalTwice(names.traceParent);
    CanonicalTwice(names.traceState);
  }

  lemma ForwardSetsAreWellFormed(names: Naming, header: Option<Header>, span: Option<Span>, forward: Header)
    requires IsForwardSet(forward, names, header, span)
    ensures IsWellFormedSet(forward)
  {
    SpanValuesAreNotBlank(span);
    forall key | key in forward
      ensures CanonicalHeaderKey(key) == key && |forward[key]| == 1 && !IsBlank(forward[key][0])
    {
      assert StoresExactly(forward, key, ForwardedValue(names, header, span, key));
      KeysAreCanonical(names, header, TraceParentOf(span), TraceStateOf(span), key);
      ValuesAreNotBlank(names, header, TraceParentOf(span), TraceStateOf(span), key);
    }
  }

  /** Looking in more places finds something whenever looking in fewer does. */
  lemma {:induction false} MoreSourcesFindMore(header: Option<Header>, fewer: seq<string>, more: seq<string>)
    requires forall name :: name in fewer ==> name in more
    ensures FirstNonBlank(header, fewer) != "" ==> FirstNonBlank(header, more) != ""
    decreases fewer
  {
    if fewer != [] {
      MoreSourcesFindMore(header, fewer[1..], more);
      if CandidateValue(header, fewer[0]) != "" {
        FoundIfThere(header, more, fewer[0]);
      }
    }
  }

  lemma {:induction false} FoundIfThere(header: Option<Header>, names: seq<string>, name: string)
    requires name in names && CandidateValue(header, name) != ""
    ensures FirstNonBlank(header, names) != ""
    decreases names
  {
    if names[0] != name {
      FoundIfThere(header, names[1..], name);
    }
  }

  /**
   Both ids or neither are forwarded if each place where a correlation id is looked for also serves for
   request ids.
   */
  lemma IncludedIdsComeTogether(names: Naming, header: Option<Header>, span: Option<Span>, forward: Header)
    requires KeysDiffer(names) && IsForwardSet(forward, names, header, span)
    requires forall source :: source in names.correlationIdSources ==> source in names.requestIdSources
    ensures CanonicalHeaderKey(names.requestId) in forward <==> CanonicalHeaderKey(names.correlationId) in forward
  {
    MoreSourcesFindMore(header, names.correlationIdSources, names.requestIdSources);
    var idKey, correlationKey := CanonicalHeaderKey(names.requestId), CanonicalHeaderKey(names.correlationId);
    assert StoresExactly(forward, idKey, ForwardedValue(names, header, span, idKey));
    assert StoresExactly(forward, correlationKey, ForwardedValue(names, header, span, correlationKey));
  }

  lemma BridgeSourcesInclude()
    ensures forall source :: source in BRIDGE_NAMES.correlationIdSources ==> source in BRIDGE_NAMES.requestIdSources
  {
    assert BRIDGE_NAMES.requestIdSources[2..] == BRIDGE_NAMES.correlationIdSources;
  }

  /** A session forwards both ids or neither: each falls back to what the other one finds. */
  lemma IdsComeTogether(header: Option<Header>, span: Option<Span>, forward: Header)
    requires IsForwardSet(forward, BRIDGE_NAMES, header, span)
    ensures CanonicalHeaderKey(BRIDGE_NAMES.requestId) in forward
            <==> CanonicalHeaderKey(BRIDGE_NAMES.correlationId) in forward
  {
    BridgeKeysDiffer();
    BridgeSourcesInclude();
    IncludedIdsComeTogether(BRIDGE_NAMES, header, span, forward);
  }

  // ---- The forward set in plain words ----

  /** The first value under a key as the request has it, without the blanks around it. */
  function Plain(header: Option<Header>, key: string): string {
    TrimSpace(FirstValue(Entries(header), key))
  }

  lemma Recased(raw: string, canonical: string)
    requires IsToken(raw) && |canonical| == |raw|
    requires forall i :: 0 <= i < |raw| ==>
               var isFirst := i == 0 || raw[i - 1] == '-';
               canonical[i] as int == if isFirst && 'a' <= raw[i] <= 'z' then raw[i] as int - 32
                                      else if !isFirst && 'A' <= raw[i] <= 'Z' then raw[i] as int + 32
                                      else raw[i] as int
    ensures CanonicalHeaderKey(raw) == canonical
  {
    CanonicalTwice(raw);
    forall i | 0 <= i < |raw|
      ensures CanonicalHeaderKey(raw)[i] == canonical[i]
    {
      CanonicalAt(raw, i);
    }
  }

  lemma RequestIdKey()
    ensures CanonicalHeaderKey("x-request-id") == "X-Request-Id"
  {
    Recased("x-request-id", "X-Request-Id");
  }

  lemma RequestIdName()
    ensures CanonicalHeaderKey("X-Request-Id") == "X-Request-Id"
  {
    Recased("X-Request-Id", "X-Request-Id");
  }

  lemma RequestIDName()
    ensures CanonicalHeaderKey("X-Request-ID") == "X-Request-Id"
  {
    Recased("X-Request-ID", "X-Request-Id");
  }

  lemma CorrelationIdKey()
    ensures CanonicalHeaderKey("x-correlation-id") == "X-Correlation-Id"
  {
    Recased("x-correlation-id", "X-Correlation-Id");
  }

  lemma CorrelationIdName()
    ensures CanonicalHeaderKey("X-Correlation-Id") == "X-Correlation-Id"
  {
    Recased("X-Correlation-Id", "X-Correlation-Id");
  }

  lemma CorrelationIDName()
    ensures CanonicalHeaderKey("X-Correlation-ID") == "X-Correlation-Id"
  {
    Recased("X-Correlation-ID", "X-Correlation-Id");
  }

  lemma TraceParentKey()
    ensures CanonicalHeaderKey("traceparent") == "Traceparent"
  {
    Recased("traceparent", "Traceparent");
  }

  lemma TraceStateKey()
    ensures CanonicalHeaderKey("tracestate") == "Tracestate"
  {
    Recased("tracestate", "Tracestate");
  }

  /** The canonical keys behind a naming: the two ids under all their spellings, and the trace headers. */
  datatype Spelled = Spelled(requestId: string, correlationId: string, traceParent: string, traceState: string)

  ghost predicate SpellsAlike(sources: seq<string>, n: nat, key: string)
    requires n < |sources|
  {
    sources[n] != "" && CanonicalHeaderKey(sources[n]) == key
  }

  ghost predicate SpellsRequestIds(sources: seq<string>, keys: Spelled) {
    && |sources| == 4
    && SpellsAlike(sources, 0, keys.requestId) && SpellsAlike(sources, 1, keys.requestId)
    && SpellsAlike(sources, 2, keys.correlationId) && SpellsAlike(sources, 3, keys.correlationId)
  }

  ghost predicate SpellsCorrelationIds(sources: seq<string>, keys: Spelled) {
    |sources| == 2 && SpellsAlike(sources, 0, keys.correlationId) && SpellsAlike(sources, 1, keys.correlationId)
  }

  ghost predicate SpellsKeys(names: Naming, keys: Spelled) {
    && CanonicalHeaderKey(names.requestId) == keys.requestId
    && CanonicalHeaderKey(names.correlationId) == keys.correlationId
    && SpellsAlike([names.traceParent], 0, keys.traceParent)
    && SpellsAlike([names.traceState], 0, keys.traceState)
  }

  ghost predicate Spells(names: Naming, keys: Spelled) {
    && SpellsKeys(names, keys)
    && SpellsRequestIds(names.requestIdSources, keys)
    && SpellsCorrelationIds(names.correlationIdSources, keys)
  }

  lemma TwoSources(header: Option<Header>, names: seq<string>, n: nat, key: string)
    requires n + 2 <= |names| && SpellsAlike(names, n, key) && SpellsAlike(names, n + 1, key)
    ensures FirstNonBlank(header, names[n..]) == Or(Plain(header, key), FirstNonBlank(header, names[n + 2..]))
  {
    NextCandidate(header, names, n);
    NextCandidate(header, names, n + 1);
  }

  lemma SourcesInWords(names: Naming, keys: Spelled, header: Option<Header>)
    requires Spells(names, keys)
    ensures FirstNonBlank(header, names.requestIdSources)
            == Or(Plain(header, keys.requestId), Plain(header, keys.correlationId))
    ensures FirstNonBlank(header, names.correlationIdSources) == Plain(header, keys.correlationId)
    ensures FirstNonBlank(header, [names.traceParent]) == Plain(header, keys.traceParent)
    ensures FirstNonBlank(header, [names.traceState]) == Plain(header, keys.traceState)
  {
    TwoSources(header, names.requestIdSources, 0, keys.requestId);
    TwoSources(header, names.requestIdSources, 2, keys.correlationId);
    TwoSources(header, names.correlationIdSources, 0, keys.correlationId);
    assert names.requestIdSources[0..] == names.requestIdSources;
    assert names.correlationIdSources[0..] == names.correlationIdSources;
    assert [names.traceParent][1..] == [] && [names.traceState][1..] == [];
  }

  const BRIDGE_KEYS := Spelled("X-Request-Id", "X-Correlation-Id", "Traceparent", "Tracestate")

  lemma BridgeKeysSpell()
    ensures SpellsKeys(BRIDGE_NAMES, BRIDGE_KEYS)
  {
    RequestIdKey();
    CorrelationIdKey();
    TraceParentKey();
    TraceStateKey();
  }

  lemma BridgeRequestIdsSpell()
    ensures SpellsRequestIds(BRIDGE_NAMES.requestIdSources, BRIDGE_KEYS)
  {
    RequestIdName();
    RequestIDName();
    CorrelationIdName();
    CorrelationIDName();
  }

  lemma BridgeCorrelationIdsSpell()
    ensures SpellsCorrelationIds(BRIDGE_NAMES.correlationIdSources, BRIDGE_KEYS)
  {
    CorrelationIdName();
    CorrelationIDName();
  }

  lemma BridgeNamesSpell()
    ensures Spells(BRIDGE_NAMES, BRIDGE_KEYS)
  {
    BridgeKeysSpell();
    BridgeRequestIdsSpell();
    BridgeCorrelationIdsSpell();
  }

  lemma SetInWords(names: Naming, keys: Spelled, header: Option<Header>, span: Option<Span>, forward: Header)
    requires Spells(names, keys) && KeysDiffer(names) && IsForwardSet(forward, names, header, span)
    ensures var id, correlation := Plain(header, keys.requestId), Plain(header, keys.correlationId);
            && StoresExactly(forward, keys.requestId, if id != "" then id else correlation)
            && StoresExactly(forward, keys.correlationId, if correlation != "" then correlation else id)
    ensures StoresExactly(forward, keys.traceParent, Or(Plain(header, keys.traceParent), TraceParentOf(span)))
    ensures StoresExactly(forward, keys.traceState, Or(Plain(header, keys.traceState), TraceStateOf(span)))
    ensures forward.Keys <= {keys.requestId, keys.correlationId, keys.traceParent, keys.traceState}
  {
    SourcesInWords(names, keys, header);
    assert StoresExactly(forward, keys.requestId, ForwardedValue(names, header, span, keys.requestId));
    assert StoresExactly(forward, keys.correlationId, ForwardedValue(names, header, span, keys.correlationId));
    assert StoresExactly(forward, keys.traceParent, ForwardedValue(names, header, span, keys.traceParent));
    assert StoresExactly(forward, keys.traceState, ForwardedValue(names, header, span, keys.traceState));
    forall key | key in forward
      ensures key in {keys.requestId, keys.correlationId, keys.traceParent, keys.traceState}
    {
      assert StoresExactly(forward, key, ForwardedValue(names, header, span, key));
    }
  }

  /**
   What a session forwards, in the terms of its upgrade request: each id under its own name falls back
   to the other, the trace headers fall back to the span, and nothing else is forwarded.
   */
  lemma WhatASessionForwards(header: Option<Header>, span: Option<Span>, forward: Header)
    requires IsForwardSet(forward, BRIDGE_NAMES, header, span)
    ensures var id, correlation := Plain(header, "X-Request-Id"), Plain(header, "X-Correlation-Id");
            && StoresExactly(forward, "X-Request-Id", if id != "" then id else correlation)
            && StoresExactly(forward, "X-Correlation-Id", if correlation != "" then correlation else id)
    ensures var parent, state := Plain(header, "Traceparent"), Plain(header, "Tracestate");
            && (parent != "" ==> StoresExactly(forward, "Traceparent", parent))
            && (state != "" ==> StoresExactly(forward, "Tracestate", state))
            && (span.Some? && parent == "" ==>
                  var ids := "00-" + span.value.traceId + "-" + span.value.spanId + "-" + span.value.flags;
                  StoresExactly(forward, "Traceparent", ids))
            && (span.Some? && state == "" ==> StoresExactly(forward, "Tracestate", TrimSpace(span.value.state)))
            && (span.None? && parent == "" ==> "Traceparent" !in forward)
            && (span.None? && state == "" ==> "Tracestate" !in forward)
    ensures forward.Keys <= {"X-Request-Id", "X-Correlation-Id", "Traceparent", "Tracestate"}
  {
    BridgeNamesSpell();
    BridgeKeysDiffer();
    SetInWords(BRIDGE_NAMES, BRIDGE_KEYS, header, span, forward);
  }
}
