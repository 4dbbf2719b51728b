/** Request headers as Go's net/http keeps them: canonical keys, lists of values, blank-aware lookup. */
module HttpHeader {
  import opened Collections

  type Header = map<string, seq<string>>

  // ---- Canonical keys ----

  predicate IsLower(c: char) {
    'a' <= c <= 'z'
  }

  predicate IsUpper(c: char) {
    'A' <= c <= 'Z'
  }

  predicate IsTokenChar(c: char) {
    IsLower(c) || IsUpper(c) || '0' <= c <= '9' || c in "!#$%&'*+-.^_`|~"
  }

  function ToUpper(c: char): char {
    if IsLower(c) then (c as int - 32) as char else c
  }

  function ToLower(c: char): char {
    if IsUpper(c) then (c as int + 32) as char else c
  }

  /** Upper case at the start and after each hyphen, lower case elsewhere. */
  function Recase(key: string, atStart: bool): string {
    if key == "" then ""
    else
      var c := if atStart then ToUpper(key[0]) else ToLower(key[0]);
      [c] + Recase(key[1..], c == '-')
  }

  predicate IsToken(key: string) {
    forall i :: 0 <= i < |key| ==> IsTokenChar(key[i])
  }

  /** A key with a character that header names may not have is left as it is. */
  function CanonicalHeaderKey(key: string): string {
    if IsToken(key) then Recase(key, true) else key
  }

  lemma {:induction false} RecaseTwice(key: string, atStart: bool)
    ensures |Recase(key, atStart)| == |key|
    ensures Recase(Recase(key, atStart), atStart) == Recase(key, atStart)
    ensures IsToken(key) ==> IsToken(Recase(key, atStart))
  {
    if key != "" {
      var c := if atStart then ToUpper(key[0]) else ToLower(key[0]);
      RecaseTwice(key[1..], c == '-');
      assert Recase(key, atStart)[1..] == Recase(key[1..], c == '-');
    }
  }

  lemma CanonicalTwice(key: string)
    ensures CanonicalHeaderKey(CanonicalHeaderKey(key)) == CanonicalHeaderKey(key)
    ensures |CanonicalHeaderKey(key)| == |key|
  {
    RecaseTwice(key, true);
  }

  /** A letter is upper case exactly at the start and after a hyphen; nothing else is changed. */
  lemma {:induction false} RecasedAt(key: string, atStart: bool, i: nat)
    requires i < |key|
    ensures |Recase(key, atStart)| == |key|
    ensures var c, isFirst := key[i], if i == 0 then atStart else key[i - 1] == '-';
            Recase(key, atStart)[i] as int
            == if isFirst && 'a' <= c <= 'z' then c as int - 32
               else if !isFirst && 'A' <= c <= 'Z' then c as int + 32
               else c as int
    decreases key
  {
    RecaseTwice(key, atStart);
    if i > 0 {
      RecasedAt(key[1..], (if atStart then ToUpper(key[0]) else ToLower(key[0])) == '-', i - 1);
    }
  }

  /** Go's canonical form of a header name, character by character. */
  lemma CanonicalAt(key: string, i: nat)
    requires IsToken(key) && i < |key|
    ensures |CanonicalHeaderKey(key)| == |key|
    ensures var c, isFirst := key[i], i == 0 || key[i - 1] == '-';
            CanonicalHeaderKey(key)[i] as int
            == if isFirst && 'a' <= c <= 'z' then c as int - 32
               else if !isFirst && 'A' <= c <= 'Z' then c as int + 32
               else c as int
  {
    RecasedAt(key, true, i);
  }

  // ---- Blank values ----

  /** The white space of Unicode, as Go's unicode.IsSpace has it. */
  predicate IsSpace(c: char) {
    || c in "\t\n\r " || c as int in {0x0B, 0x0C, 0x85, 0xA0, 0x1680, 0x2028, 0x2029, 0x202F, 0x205F, 0x3000}
    || 0x2000 <= c as int <= 0x200A
  }

  predicate IsBlank(s: string) {
    forall i :: 0 <= i < |s| ==> IsSpace(s[i])
  }

  function TrimSpace(s: string): string
    decreases |s|
  {
    if s == "" then ""
    else if IsSpace(s[0]) then TrimSpace(s[1..])
    else if IsSpace(s[|s| - 1]) then TrimSpace(s[..|s| - 1])
    else s
  }

  /** Trimming leaves nothing exactly of a blank string, and trimming again changes nothing. */
  lemma {:induction false} TrimDecidesBlank(s: string)
    ensures TrimSpace(s) == "" <==> IsBlank(s)
    ensures TrimSpace(TrimSpace(s)) == TrimSpace(s)
    decreases |s|
  {
    if s == "" {
    } else if IsSpace(s[0]) {
      TrimDecidesBlank(s[1..]);
      assert s == [s[0]] + s[1..];
    } else if IsSpace(s[|s| - 1]) {
      TrimDecidesBlank(s[..|s| - 1]);
      assert s[..|s| - 1][0] == s[0];
    }
  }

  /** All but the characters between two positions are white, and what is between begins and ends visibly. */
  ghost predicate IsMiddle(s: string, from: nat, to: nat) {
    && from <= to <= |s|
    && (forall i :: 0 <= i < from || to <= i < |s| ==> IsSpace(s[i]))
    && (from < to ==> !IsSpace(s[from]) && !IsSpace(s[to - 1]))
  }

  lemma MiddleOfRest(s: string, from: nat, to: nat)
    requires s != "" && IsSpace(s[0]) && IsMiddle(s[1..], from, to)
    ensures IsMiddle(s, from + 1, to + 1) && s[1..][from..to] == s[from + 1..to + 1]
  {
    assert forall i :: 0 < i < |s| ==> s[i] == s[1..][i - 1];
  }

  lemma MiddleOfFront(s: string, from: nat, to: nat)
    requires s != "" && IsSpace(s[|s| - 1]) && IsMiddle(s[..|s| - 1], from, to)
    ensures IsMiddle(s, from, to) && s[..|s| - 1][from..to] == s[from..to]
  {
  }

  /** Trimming takes white space off both ends, and nothing else. */
  lemma {:induction false} TrimIsTheMiddle(s: string) returns (from: nat, to: nat)
    ensures IsMiddle(s, from, to) && TrimSpace(s) == s[from..to]
    decreases |s|
  {
    if s == "" {
      from, to := 0, 0;
    } else if IsSpace(s[0]) {
      from, to := TrimIsTheMiddle(s[1..]);
      MiddleOfRest(s, from, to);
      from, to := from + 1, to + 1;
    } else if IsSpace(s[|s| - 1]) {
      from, to := TrimIsTheMiddle(s[..|s| - 1]);
      MiddleOfFront(s, from, to);
    } else {
      from, to := 0, |s|;
    }
  }

  /** Among the ASCII characters, tab, line feed, vertical tab, form feed, carriage return and space are white. */
  lemma AsciiSpace(c: char)
    requires c as int < 128
    ensures IsSpace(c) <==> 9 <= c as int <= 13 || c as int == 32
  {
  }

  // ---- Lookup ----

  /** What a nil header reads as. */
  function Entries(header: Option<Header>): Header {
    if header.None? then map[] else header.value
  }

  /** The first value stored under a canonical key. */
  function FirstValue(header: Header, key: string): string {
    if key in header && header[key] != [] then header[key][0] else ""
  }

  function Get(header: Option<Header>, key: string): string {
    FirstValue(Entries(header), CanonicalHeaderKey(key))
  }
}
