/**
 When the order of a map iteration can show. The injection handler takes any header set, and two raw
 keys of a set may be spellings of one canonical key. The outcome is the same in every order exactly
 when no two spellings that could win hold different values.
 */
module ForwardOrder {
  import opened Collections
  import opened ForwardHeaders
  import opened ForwardInjection
  import opened HttpHeader

  // ---- One key of a filled header ----

  predicate IsBlankAt(values: Option<seq<string>>) {
    values.None? || values.value == [] || IsBlank(values.value[0])
  }

  function FillOneKey(values: Option<seq<string>>, entry: Entry, key: string): Option<seq<string>> {
    if entry.key == key && IsBlankAt(values) then Some(entry.values) else values
  }

  /** What filling makes of the values of one key. */
  function FillKey(values: Option<seq<string>>, entries: seq<Entry>, key: string): Option<seq<string>> {
    if entries == [] then values
    else FillOneKey(FillKey(values, entries[..|entries| - 1], key), entries[|entries| - 1], key)
  }

  ghost predicate HasCanonicalKeys(entries: seq<Entry>) {
    forall i :: 0 <= i < |entries| ==> CanonicalHeaderKey(entries[i].key) == entries[i].key
  }

  lemma {:induction false} FillActsKeyByKey(header: Header, entries: seq<Entry>, key: string)
    requires HasCanonicalKeys(entries)
    ensures At(Fill(header, entries), key) == FillKey(At(header, key), entries, key)
    decreases entries
  {
    if entries != [] {
      var n := |entries| - 1;
      FillActsKeyByKey(header, entries[..n], key);
      FillOneAt(Fill(header, entries[..n]), entries[n]);
    }
  }

  lemma {:induction false} ValuesStay(values: Option<seq<string>>, entries: seq<Entry>, key: string)
    requires !IsBlankAt(values)
    ensures FillKey(values, entries, key) == values
    decreases entries
  {
    if entries != [] {
      ValuesStay(values, entries[..|entries| - 1], key);
    }
  }

  lemma {:induction false} FirstEntryFirst(values: Option<seq<string>>, entry: Entry, rest: seq<Entry>, key: string)
    ensures FillKey(values, [entry] + rest, key) == FillKey(FillOneKey(values, entry, key), rest, key)
    decreases rest
  {
    var all := [entry] + rest;
    if rest == [] {
      assert all == [entry] && all[..0] == [];
    } else {
      assert all[..|all| - 1] == [entry] + rest[..|rest| - 1];
      FirstEntryFirst(values, entry, rest[..|rest| - 1], key);
    }
  }

  /** A blank key ends with the values of one of its entries, and with blank ones only if it has no others. */
  lemma {:induction false} SomeEntryWins(values: Option<seq<string>>, entries: seq<Entry>, key: string) returns (i: int)
    requires IsBlankAt(values)
    ensures i == -1 ==> FillKey(values, entries, key) == values
    ensures i == -1 ==> forall j :: 0 <= j < |entries| ==> entries[j].key != key
    ensures i != -1 ==>
              0 <= i < |entries| && entries[i].key == key && FillKey(values, entries, key) == Some(entries[i].values)
    ensures IsBlankAt(FillKey(values, entries, key)) ==>
              forall j :: 0 <= j < |entries| && entries[j].key == key ==> IsBlankAt(Some(entries[j].values))
    decreases entries
  {
    if entries == [] {
      i := -1;
    } else {
      var n := |entries| - 1;
      i := SomeEntryWins(values, entries[..n], key);
      if entries[n].key == key && IsBlankAt(FillKey(values, entries[..n], key)) {
        i := n;
      }
    }
  }

  // ---- Spellings of one key ----

  predicate IsSpelling(forward: Header, raw: string, key: string) {
    raw in forward && forward[raw] != [] && CanonicalHeaderKey(raw) == key
  }

  /** Some order lets this spelling win: it is not blank, or no spelling of its key is any better. */
  ghost predicate CouldWin(forward: Header, raw: string, key: string) {
    && IsSpelling(forward, raw, key)
    && (IsBlank(forward[raw][0]) ==> forall other :: IsSpelling(forward, other, key) ==> IsBlank(forward[other][0]))
  }

  ghost predicate NoClash(forward: Header) {
    forall key, a, b :: CouldWin(forward, a, key) && CouldWin(forward, b, key) ==> forward[a] == forward[b]
  }

  ghost predicate OrderNeverShows(forward: Header) {
    forall header, entries, entries' ::
      Lists(entries, forward) && Lists(entries', forward) ==> Fill(header, entries) == Fill(header, entries')
  }

  lemma ListedSpellings(forward: Header, keys: seq<string>, entries: seq<Entry>, key: string)
    requires Enumerates(keys, entries, forward)
    ensures HasCanonicalKeys(entries)
    ensures forall i :: 0 <= i < |keys| && entries[i].key == key ==> IsSpelling(forward, keys[i], key)
    ensures forall raw :: IsSpelling(forward, raw, key) ==>
              exists i :: 0 <= i < |keys| && keys[i] == raw && entries[i] == Entry(key, forward[raw])
  {
    forall i | 0 <= i < |entries|
      ensures CanonicalHeaderKey(entries[i].key) == entries[i].key && keys[i] in keys
    {
      CanonicalTwice(keys[i]);
    }
    forall raw | IsSpelling(forward, raw, key)
      ensures exists i :: 0 <= i < |keys| && keys[i] == raw && entries[i] == Entry(key, forward[raw])
    {
      assert raw in keys;
      var i :| 0 <= i < |keys| && keys[i] == raw;
    }
  }

  /** Every listing gives a blank key the values of a spelling that could win, if it has a spelling at all. */
  lemma WinnerCouldWin(forward: Header, keys: seq<string>, entries: seq<Entry>, key: string,
                       values: Option<seq<string>>)
    requires Enumerates(keys, entries, forward) && IsBlankAt(values)
    ensures if exists raw :: IsSpelling(forward, raw, key)
            then exists raw :: CouldWin(forward, raw, key) && FillKey(values, entries, key) == Some(forward[raw])
            else FillKey(values, entries, key) == values
  {
    ListedSpellings(forward, keys, entries, key);
    var i := SomeEntryWins(values, entries, key);
    if i != -1 {
      assert IsSpelling(forward, keys[i], key) && entries[i] == Entry(key, forward[keys[i]]);
      assert CouldWin(forward, keys[i], key);
    }
  }

  lemma SameKeyInBothOrders(forward: Header, entries: seq<Entry>, entries': seq<Entry>, key: string, header: Header)
    requires NoClash(forward) && Lists(entries, forward) && Lists(entries', forward)
    ensures At(Fill(header, entries), key) == At(Fill(header, entries'), key)
  {
    var keys :| Enumerates(keys, entries, forward);
    var keys' :| Enumerates(keys', entries', forward);
    ListedSpellings(forward, keys, entries, key);
    ListedSpellings(forward, keys', entries', key);
    FillActsKeyByKey(header, entries, key);
    FillActsKeyByKey(header, entries', key);
    if IsBlankAt(At(header, key)) {
      WinnerCouldWin(forward, keys, entries, key, At(header, key));
      WinnerCouldWin(forward, keys', entries', key, At(header, key));
    } else {
      ValuesStay(At(header, key), entries, key);
      ValuesStay(At(header, key), entries', key);
    }
  }

  lemma SameKeysSameHeader(a: Header, b: Header)
    requires forall key :: At(a, key) == At(b, key)
    ensures a == b
  {
    assert forall key :: key in a <==> At(a, key).Some?;
    assert forall key :: key in b <==> At(b, key).Some?;
  }

  lemma NoClashNeverShows(forward: Header)
    requires NoClash(forward)
    ensures OrderNeverShows(forward)
  {
    forall header, entries, entries' | Lists(entries, forward) && Lists(entries', forward)
      ensures Fill(header, entries) == Fill(header, entries')
    {
      forall key {
        SameKeyInBothOrders(forward, entries, entries', key, header);
      }
      SameKeysSameHeader(Fill(header, entries), Fill(header, entries'));
    }
  }

  // ---- A clash shows ----

  lemma {:induction false} SomeOrderOf(keys: set<string>) returns (order: seq<string>)
    ensures forall key :: key in order <==> key in keys
    ensures forall i, j :: 0 <= i < j < |order| ==> order[i] != order[j]
    decreases |keys|
  {
    if keys == {} {
      order := [];
    } else {
      var key :| key in keys;
      var rest := SomeOrderOf(keys - {key});
      order := [key] + rest;
    }
  }

  function EntriesOf(forward: Header, keys: seq<string>): seq<Entry>
    requires forall key :: key in keys ==> key in forward
  {
    seq(|keys|, i requires 0 <= i < |keys| => Entry(CanonicalHeaderKey(keys[i]), forward[keys[i]]))
  }

  ghost predicate Orders(keys: seq<string>, forward: Header) {
    && (forall key :: key in keys <==> key in forward && forward[key] != [])
    && (forall i, j :: 0 <= i < j < |keys| ==> keys[i] != keys[j])
  }

  lemma AnyOrderLists(forward: Header, keys: seq<string>)
    requires Orders(keys, forward)
    ensures Lists(EntriesOf(forward, keys), forward)
  {
    assert Enumerates(keys, EntriesOf(forward, keys), forward);
  }

  lemma OneMoreKey(forward: Header, raw: string, order: seq<string>)
    requires raw in forward && forward[raw] != [] && Orders(order, forward - {raw})
    ensures Orders([raw] + order, forward) && Orders(order + [raw], forward)
  {
    assert forall i :: 0 <= i < |order| ==> order[i] in order;
  }

  lemma SomeOrder(forward: Header) returns (order: seq<string>)
    ensures Orders(order, forward)
  {
    var keys := set key | key in forward && forward[key] != [];
    order := SomeOrderOf(keys);
  }

  lemma EntriesConcatenate(forward: Header, keys: seq<string>, more: seq<string>)
    requires (forall key :: key in keys ==> key in forward) && (forall key :: key in more ==> key in forward)
    ensures forall key :: key in keys + more ==> key in forward
    ensures EntriesOf(forward, keys + more) == EntriesOf(forward, keys) + EntriesOf(forward, more)
  {
  }

  lemma EntriesOfOne(forward: Header, raw: string)
    requires raw in forward
    ensures EntriesOf(forward, [raw]) == [Entry(CanonicalHeaderKey(raw), forward[raw])]
  {
  }

  /** Two listings: one begins with the given key, the other ends with it. */
  lemma FirstAndLast(forward: Header, raw: string) returns (rest: seq<Entry>)
    requires raw in forward && forward[raw] != []
    ensures Lists([Entry(CanonicalHeaderKey(raw), forward[raw])] + rest, forward)
    ensures Lists(rest + [Entry(CanonicalHeaderKey(raw), forward[raw])], forward)
  {
    var order := SomeOrder(forward - {raw});
    OneMoreKey(forward, raw, order);
    AnyOrderLists(forward, [raw] + order);
    AnyOrderLists(forward, order + [raw]);
    EntriesOfOne(forward, raw);
    EntriesConcatenate(forward, [raw], order);
    EntriesConcatenate(forward, order, [raw]);
    rest := EntriesOf(forward, order);
  }

  lemma FirstSpellingWins(entry: Entry, rest: seq<Entry>)
    requires HasCanonicalKeys([entry] + rest) && !IsBlankAt(Some(entry.values))
    ensures At(Fill(map[], [entry] + rest), entry.key) == Some(entry.values)
  {
    FillActsKeyByKey(map[], [entry] + rest, entry.key);
    FirstEntryFirst(None, entry, rest, entry.key);
    ValuesStay(Some(entry.values), rest, entry.key);
  }

  lemma LastSpellingWins(entry: Entry, rest: seq<Entry>)
    requires HasCanonicalKeys(rest + [entry])
    requires forall i :: 0 <= i < |rest| && rest[i].key == entry.key ==> IsBlankAt(Some(rest[i].values))
    ensures At(Fill(map[], rest + [entry]), entry.key) == Some(entry.values)
  {
    var all := rest + [entry];
    assert all[..|all| - 1] == rest;
    FillActsKeyByKey(map[], all, entry.key);
    var i := SomeEntryWins(None, rest, entry.key);
  }

  /** Whatever could win does win, in some order, in a request without headers. */
  lemma CouldWinDoesWin(forward: Header, raw: string, key: string) returns (entries: seq<Entry>)
    requires CouldWin(forward, raw, key)
    ensures Lists(entries, forward) && At(Fill(map[], entries), key) == Some(forward[raw])
  {
    var rest := FirstAndLast(forward, raw);
    var entry := Entry(key, forward[raw]);
    entries := if IsBlank(forward[raw][0]) then rest + [entry] else [entry] + rest;
    var keys :| Enumerates(keys, entries, forward);
    ListedSpellings(forward, keys, entries, key);
    if IsBlank(forward[raw][0]) {
      forall i | 0 <= i < |rest| && rest[i].key == key
        ensures IsBlankAt(Some(rest[i].values))
      {
        assert entries[i] == rest[i] && IsSpelling(forward, keys[i], key);
      }
      LastSpellingWins(entry, rest);
    } else {
      FirstSpellingWins(entry, rest);
    }
  }

  lemma ClashShows(forward: Header)
    requires OrderNeverShows(forward)
    ensures NoClash(forward)
  {
    forall key, a, b | CouldWin(forward, a, key) && CouldWin(forward, b, key)
      ensures forward[a] == forward[b]
    {
      var entries := CouldWinDoesWin(forward, a, key);
      var entries' := CouldWinDoesWin(forward, b, key);
      assert Fill(map[], entries) == Fill(map[], entries');
    }
  }

  /**
   For any header set at all, every request comes out the same in every order exactly when no two
   spellings of one key that could win hold different values.
   */
  lemma OrderShowsExactlyInClashes(forward: Header)
    ensures OrderNeverShows(forward) <==> NoClash(forward)
  {
    if NoClash(forward) {
      NoClashNeverShows(forward);
    }
    if OrderNeverShows(forward) {
      ClashShows(forward);
    }
  }

  /** The sets of a session have one spelling of each key, so their order never shows. */
  lemma SessionOrderNeverShows(names: Naming, from: Option<Header>, span: Option<Span>, forward: Header)
    requires IsForwardSet(forward, names, from, span)
    ensures OrderNeverShows(forward)
  {
    ForwardSetsAreWellFormed(names, from, span, forward);
    OrderShowsExactlyInClashes(forward);
  }

  /** An order does show for two spellings with two values. */
  lemma SpellingsCanClash()
    ensures !OrderNeverShows(map["x" := ["1"], "X" := ["2"]])
  {
    var forward := map["x" := ["1"], "X" := ["2"]];
    assert CanonicalHeaderKey("x") == "X" == CanonicalHeaderKey("X");
    assert !IsBlank("1") && !IsBlank("2") by {
      assert "1"[0] == '1' && "2"[0] == '2';
    }
    assert CouldWin(forward, "x", "X") && CouldWin(forward, "X", "X");
    assert forward["x"] != forward["X"];
    OrderShowsExactlyInClashes(forward);
  }
}
