/**
 Injecting the forward set into tunneled requests: scan first, and only if something is missing clone
 the request once and fill the blanks.
 */
module ForwardInjection {
  import opened Collections
  import opened ForwardHeaders
  import opened HttpHeader

  datatype Entry = Entry(key: string, values: seq<string>)

  // ---- The handler ----

  /** The raw keys of a forward set in the order a map iteration happened to give them. */
  ghost predicate Enumerates(keys: seq<string>, entries: seq<Entry>, forward: Header) {
    && |entries| == |keys|
    && (forall i, j :: 0 <= i < j < |keys| ==> keys[i] != keys[j])
    && (forall key :: key in keys <==> key in forward && forward[key] != [])
    && (forall i :: 0 <= i < |keys| ==> entries[i] == Entry(CanonicalHeaderKey(keys[i]), forward[keys[i]]))
  }

  /** The entries of a forward set, in some order. */
  ghost predicate Lists(entries: seq<Entry>, forward: Header) {
    exists keys :: Enumerates(keys, entries, forward)
  }

  /** Precompute the entries of a session; the order is the map's. */
  method SnapshotEntries(forward: Header) returns (entries: seq<Entry>)
    ensures Lists(entries, forward)
  {
    entries := [];
    ghost var keys: seq<string> := [];
    var left := forward.Keys;
    while left != {}
      invariant left <= forward.Keys
      invariant |entries| == |keys| && forall i, j :: 0 <= i < j < |keys| ==> keys[i] != keys[j]
      invariant forall key :: key in keys <==> key in forward && key !in left && forward[key] != []
      invariant forall i :: 0 <= i < |keys| ==> entries[i] == Entry(CanonicalHeaderKey(keys[i]), forward[keys[i]])
      decreases |left|
    {
      var key :| key in left;
      left := left - {key};
      if |forward[key]| == 0 {
        continue;
      }
      entries := entries + [Entry(CanonicalHeaderKey(key), forward[key])];
      keys := keys + [key];
    }
    assert Enumerates(keys, entries, forward);
  }

  ghost predicate NeedsInjection(header: Option<Header>, entries: seq<Entry>) {
    exists i :: 0 <= i < |entries| && IsBlank(Get(header, entries[i].key))
  }

  function FillOne(header: Header, entry: Entry): Header {
    if TrimSpace(Get(Some(header), entry.key)) == "" then header[entry.key := entry.values] else header
  }

  /** Fill blanks entry by entry. */
  function Fill(header: Header, entries: seq<Entry>): Header {
    if entries == [] then header
    else FillOne(Fill(header, entries[..|entries| - 1]), entries[|entries| - 1])
  }

  method FindMissing(entries: seq<Entry>, r: Request) returns (needsInjection: bool)
    ensures needsInjection <==> NeedsInjection(r.header, entries)
  {
    needsInjection := false;
    for n := 0 to |entries|
      invariant !needsInjection
      invariant forall i :: 0 <= i < n ==> !IsBlank(Get(r.header, entries[i].key))
    {
      TrimDecidesBlank(Get(r.header, entries[n].key));
      if TrimSpace(Get(r.header, entries[n].key)) == "" {
        needsInjection := true;
        break;
      }
    }
  }

  method Inject(entries: seq<Entry>, forwarded: Request)
    modifies forwarded
    ensures forwarded.header == Some(Fill(old(Entries(forwarded.header)), entries))
  {
    if forwarded.header == None {
      forwarded.header := Some(map[]);
    }
    for n := 0 to |entries|
      invariant forwarded.header == Some(Fill(old(Entries(forwarded.header)), entries[..n]))
    {
      assert entries[..n + 1][..n] == entries[..n];
      if TrimSpace(Get(forwarded.header, entries[n].key)) != "" {
        continue;
      }
      forwarded.header := Some(forwarded.header.value[entries[n].key := entries[n].values]);
    }
    assert entries[..|entries|] == entries;
  }

  /** The wrapped handler: what the inner handler is given for a request. The request itself is never written to. */
  method Serve(entries: seq<Entry>, r: Request?) returns (passed: Request?)
    ensures passed == null <==> r == null
    ensures r != null ==> (passed == r <==> !NeedsInjection(r.header, entries))
    ensures r != null && passed != r ==>
              fresh(passed) && passed.rest == r.rest && passed.header == Some(Fill(Entries(r.header), entries))
  {
    if r == null {
      return null;
    }
    var needsInjection := FindMissing(entries, r);
    if !needsInjection {
      return r;
    }
    var forwarded := r.Clone();
    Inject(entries, forwarded);
    return forwarded;
  }

  // ---- What filling means, whatever the order ----

  /** Every key that is missing or blank in the header has the forwarded values; nothing else is different. */
  function FilledWith(header: Header, forward: Header): Header {
    map key | key in header.Keys + forward.Keys ::
      if key in forward && IsBlank(FirstValue(header, key)) then forward[key] else header[key]
  }

  /** The entries of the first n keys, as a set of their own. */
  function Restricted(forward: Header, keys: seq<string>): Header {
    map key | key in keys && key in forward :: forward[key]
  }

  lemma FillOneAt(header: Header, entry: Entry)
    requires CanonicalHeaderKey(entry.key) == entry.key
    ensures FillOne(header, entry)
            == if IsBlank(FirstValue(header, entry.key)) then header[entry.key := entry.values] else header
  {
    TrimDecidesBlank(FirstValue(header, entry.key));
  }

  lemma FilledWithOneMore(header: Header, part: Header, key: string, values: seq<string>)
    requires key !in part
    ensures FilledWith(header, part[key := values])
            == if IsBlank(FirstValue(header, key)) then FilledWith(header, part)[key := values]
               else FilledWith(header, part)
    ensures FirstValue(FilledWith(header, part), key) == FirstValue(header, key)
  {
    if !IsBlank(FirstValue(header, key)) {
      assert key in header;
    }
  }

  /** One more entry extends the part of the set that is filled in. */
  lemma FillOneMore(header: Header, forward: Header, before: seq<string>, key: string)
    requires key in forward && key !in before && CanonicalHeaderKey(key) == key
    ensures FillOne(FilledWith(header, Restricted(forward, before)), Entry(key, forward[key]))
            == FilledWith(header, Restricted(forward, before + [key]))
  {
    var part := Restricted(forward, before);
    assert Restricted(forward, before + [key]) == part[key := forward[key]];
    FilledWithOneMore(header, part, key, forward[key]);
    FillOneAt(FilledWith(header, part), Entry(key, forward[key]));
  }

  lemma {:induction false} FillInOrder(header: Header, forward: Header, keys: seq<string>, entries: seq<Entry>)
    requires IsWellFormedSet(forward) && |entries| == |keys|
    requires forall i, j :: 0 <= i < j < |keys| ==> keys[i] != keys[j]
    requires forall i :: 0 <= i < |keys| ==> keys[i] in forward && entries[i] == Entry(keys[i], forward[keys[i]])
    ensures Fill(header, entries) == FilledWith(header, Restricted(forward, keys))
    decreases keys
  {
    if keys == [] {
      assert FilledWith(header, map[]) == header;
    } else {
      var n := |keys| - 1;
      FillInOrder(header, forward, keys[..n], entries[..n]);
      assert keys == keys[..n] + [keys[n]];
      FillOneMore(header, forward, keys[..n], keys[n]);
    }
  }

  lemma EnumeratesAll(forward: Header, keys: seq<string>, entries: seq<Entry>)
    requires Enumerates(keys, entries, forward) && IsWellFormedSet(forward)
    ensures Restricted(forward, keys) == forward
  {
    assert forall key :: key in forward ==> forward[key] != [];
  }

  lemma EntryAt(forward: Header, keys: seq<string>, entries: seq<Entry>, i: nat)
    requires Enumerates(keys, entries, forward) && IsWellFormedSet(forward) && i < |keys|
    ensures keys[i] in forward && entries[i] == Entry(keys[i], forward[keys[i]])
  {
    assert keys[i] in keys;
  }

  lemma FillInListedOrder(header: Header, forward: Header, keys: seq<string>, entries: seq<Entry>)
    requires Enumerates(keys, entries, forward) && IsWellFormedSet(forward)
    ensures Fill(header, entries) == FilledWith(header, forward)
  {
    forall i | 0 <= i < |keys|
      ensures keys[i] in forward && entries[i] == Entry(keys[i], forward[keys[i]])
    {
      EntryAt(forward, keys, entries, i);
    }
    FillInOrder(header, forward, keys, entries);
    EnumeratesAll(forward, keys, entries);
  }

  /** Whatever order the map iteration gave, the handler fills each missing or blank key and changes nothing else. */
  lemma FillIsOrderFree(header: Header, forward: Header, entries: seq<Entry>)
    requires IsWellFormedSet(forward) && Lists(entries, forward)
    ensures Fill(header, entries) == FilledWith(header, forward)
  {
    var keys :| Enumerates(keys, entries, forward);
    FillInListedOrder(header, forward, keys, entries);
  }

  lemma EntryOfKey(header: Option<Header>, forward: Header, keys: seq<string>, entries: seq<Entry>, i: nat)
    requires IsWellFormedSet(forward) && Enumerates(keys, entries, forward) && i < |keys|
    ensures keys[i] in forward && Get(header, entries[i].key) == FirstValue(Entries(header), keys[i])
  {
    assert keys[i] in keys;
  }

  /** The scan finds something to do exactly when the request lacks a forwarded key. */
  lemma ScanFindsWhatIsMissing(header: Option<Header>, forward: Header, entries: seq<Entry>)
    requires IsWellFormedSet(forward) && Lists(entries, forward)
    ensures NeedsInjection(header, entries)
            <==> exists key :: key in forward && IsBlank(FirstValue(Entries(header), key))
  {
    var keys :| Enumerates(keys, entries, forward);
    forall i | 0 <= i < |keys|
      ensures keys[i] in forward && Get(header, entries[i].key) == FirstValue(Entries(header), keys[i])
    {
      EntryOfKey(header, forward, keys, entries, i);
    }
    if key :| key in forward && IsBlank(FirstValue(Entries(header), key)) {
      assert forward[key] != [];
      var i :| 0 <= i < |keys| && keys[i] == key;
      assert IsBlank(Get(header, entries[i].key));
    }
  }

  /** Filling changes a header exactly when it lacks a forwarded key. */
  lemma FillingChangesWhatIsMissing(header: Header, forward: Header)
    requires IsWellFormedSet(forward)
    ensures FilledWith(header, forward) != header <==> exists key :: key in forward && IsBlank(FirstValue(header, key))
  {
    if key :| key in forward && IsBlank(FirstValue(header, key)) {
      assert FilledWith(header, forward)[key] == forward[key];
    }
  }

  lemma FilledLacksNothing(header: Header, forward: Header)
    requires IsWellFormedSet(forward)
    ensures forall key :: key in forward ==> !IsBlank(FirstValue(FilledWith(header, forward), key))
    ensures FilledWith(FilledWith(header, forward), forward) == FilledWith(header, forward)
  {
    forall key | key in forward
      ensures !IsBlank(FirstValue(FilledWith(header, forward), key))
    {
      if !IsBlank(FirstValue(header, key)) {
        assert key in header;
      }
    }
    FillingChangesWhatIsMissing(FilledWith(header, forward), forward);
  }

  /** A second wrapping by the same set, in any order, passes the filled request on untouched. */
  lemma WrappingTwiceChangesNothing(header: Header, forward: Header, entries: seq<Entry>, entries': seq<Entry>)
    requires IsWellFormedSet(forward) && Lists(entries, forward) && Lists(entries', forward)
    ensures !NeedsInjection(Some(Fill(header, entries)), entries')
    ensures Fill(Fill(header, entries), entries') == Fill(header, entries)
  {
    FillIsOrderFree(header, forward, entries);
    FillIsOrderFree(FilledWith(header, forward), forward, entries');
    FilledLacksNothing(header, forward);
    ScanFindsWhatIsMissing(Some(FilledWith(header, forward)), forward, entries');
  }

  // ---- One session, from upgrade request to tunneled request ----

  function At(header: Header, key: string): Option<seq<string>> {
    if key in header then Some(header[key]) else None
  }

  /** The values of a session, filled into a request's header where they are missing. */
  lemma SessionFills(names: Naming, from: Option<Header>, span: Option<Span>, forward: Header, header: Header,
                     key: string)
    requires IsForwardSet(forward, names, from, span)
    ensures At(FilledWith(header, forward), key) ==
            if ForwardedValue(names, from, span, key) != "" && IsBlank(FirstValue(header, key))
            then Some([ForwardedValue(names, from, span, key)])
            else At(header, key)
    ensures key in forward <==> ForwardedValue(names, from, span, key) != ""
  {
    assert StoresExactly(forward, key, ForwardedValue(names, from, span, key));
  }

  function HeaderOf(r: Request?): Option<Header>
    reads r
  {
    if r == null then None else r.header
  }

  /**
   What the gRPC server is given for a tunneled request: the request itself if it has all the values
   its session forwards, else a copy in which exactly the missing or blank ones are filled in.
   */
  method ServeInSession(names: Naming, upgrade: Request?, span: Option<Span>, r: Request) returns (passed: Request)
    requires IsUsable(names)
    ensures passed == r <==> forall key :: ForwardedValue(names, HeaderOf(upgrade), span, key) != "" ==>
                                             !IsBlank(FirstValue(Entries(r.header), key))
    ensures passed != r ==> fresh(passed) && passed.rest == r.rest
    ensures forall key ::
              At(Entries(passed.header), key) ==
              if ForwardedValue(names, HeaderOf(upgrade), span, key) != ""
                && IsBlank(FirstValue(Entries(r.header), key))
              then Some([ForwardedValue(names, HeaderOf(upgrade), span, key)])
              else At(Entries(r.header), key)
  {
    var forward := BuildBridgeForwardHeaders(names, upgrade, span);
    ghost var from, header := HeaderOf(upgrade), Entries(r.header);
    var entries := SnapshotEntries(forward);
    ForwardSetsAreWellFormed(names, from, span, forward);
    FillIsOrderFree(header, forward, entries);
    ScanFindsWhatIsMissing(r.header, forward, entries);
    FillingChangesWhatIsMissing(header, forward);
    passed := Serve(entries, r);
    assert Entries(passed.header) == FilledWith(header, forward);
    forall key {
      SessionFills(names, from, span, forward, header, key);
    }
  }
}
