/**
  Route keys as they arrive from clients: a SHA-256 fingerprint in lower-case hexadecimal
  and a short kind tag.  Validation trims the kind, rejects malformed keys, and keeps the
  first occurrence of every fingerprint.
 */
module RouteKeys {
  import opened Base

  datatype RawKey = RawKey(hash: string, kind: string)
  datatype Hash = Hash(text: string)
  datatype Kind = Kind(name: string)
  datatype RouteKey = RouteKey(hash: Hash, kind: Kind)

  const MAX_ROUTE_KEYS: nat := 500
  const SESSION_ID: Kind := Kind("session_id")

  predicate HexDigit(c: char) {
    '0' <= c <= '9' || 'a' <= c <= 'f'
  }

  predicate ValidHash(s: string) {
    |s| == 64 && forall i | 0 <= i < |s| :: HexDigit(s[i])
  }

  predicate KindChar(c: char) {
    'a' <= c <= 'z' || 'A' <= c <= 'Z' || '0' <= c <= '9' || c == '_' || c == '-'
  }

  predicate ValidKind(s: string) {
    0 < |s| <= 64 && forall i | 0 <= i < |s| :: KindChar(s[i])
  }

  /** The Unicode White_Space characters that `str::trim` removes. */
  predicate Whitespace(c: char) {
    var n := c as int;
    9 <= n <= 13 || n == 32 || n == 0x85 || n == 0xA0 || n == 0x1680 || 0x2000 <= n <= 0x200A
    || n == 0x2028 || n == 0x2029 || n == 0x202F || n == 0x205F || n == 0x3000
  }

  function Trim(s: string): string {
    if s == "" then s
    else if Whitespace(s[0]) then Trim(s[1..])
    else if Whitespace(s[|s| - 1]) then Trim(s[..|s| - 1])
    else s
  }

  predicate Blank(s: string) { forall i | 0 <= i < |s| :: Whitespace(s[i]) }

  lemma BlankLonger(s: string, c: char)
    requires Blank(s) && Whitespace(c)
    ensures Blank([c] + s) && Blank(s + [c])
  {
    hide Whitespace;
  }

  lemma {:induction false} TrimmedEnds(s: string)
    ensures Trim(s) != "" ==> !Whitespace(Trim(s)[0]) && !Whitespace(Trim(s)[|Trim(s)| - 1])
  {
    hide Whitespace;
    if s != "" && Whitespace(s[0]) {
      TrimmedEnds(s[1..]);
    } else if s != "" && Whitespace(s[|s| - 1]) {
      TrimmedEnds(s[..|s| - 1]);
    }
  }

  lemma {:induction false} TrimmedParts(s: string) returns (before: string, after: string)
    ensures s == before + Trim(s) + after && Blank(before) && Blank(after)
  {
    hide Whitespace, Blank;
    before, after := "", "";
    assert Blank("") by { NothingBlank(); }
    if s != "" && Whitespace(s[0]) {
      var inner;
      inner, after := TrimmedParts(s[1..]);
      before := [s[0]] + inner;
      BlankLonger(inner, s[0]);
      assert s == [s[0]] + s[1..];
    } else if s != "" && Whitespace(s[|s| - 1]) {
      var inner;
      before, inner := TrimmedParts(s[..|s| - 1]);
      after := inner + [s[|s| - 1]];
      BlankLonger(inner, s[|s| - 1]);
      assert s == s[..|s| - 1] + [s[|s| - 1]];
    }
  }

  lemma NothingBlank()
    ensures Blank("")
  {}

  /** Trimming takes white space from both ends, all of it, and nothing else. */
  lemma TrimExactly(s: string)
    ensures exists before, after :: s == before + Trim(s) + after && Blank(before) && Blank(after)
    ensures Trim(s) != "" ==> !Whitespace(Trim(s)[0]) && !Whitespace(Trim(s)[|Trim(s)| - 1])
  {
    hide *;
    TrimmedEnds(s);
    var before, after := TrimmedParts(s);
  }

  predicate WellFormed(k: RawKey) {
    ValidHash(k.hash) && ValidKind(Trim(k.kind))
  }

  /** The validated form of one raw key. */
  function Normal(k: RawKey): RouteKey {
    RouteKey(Hash(k.hash), Kind(Trim(k.kind)))
  }

  /** The validated forms of all raw keys. */
  function NormalSet(raw: seq<RawKey>): set<RouteKey> {
    set i | 0 <= i < |raw| :: Normal(raw[i])
  }

  function ElementsOf(keys: seq<RouteKey>): set<RouteKey> {
    set k | k in keys
  }

  function HashesOf(keys: seq<RouteKey>): set<Hash> {
    set k | k in keys :: k.hash
  }

  predicate Distinct(keys: seq<RouteKey>) {
    forall i, j | 0 <= i < j < |keys| :: keys[i].hash != keys[j].hash
  }

  /** No fingerprint carries two different kinds. */
  predicate Functional(keys: set<RouteKey>) {
    forall a, b | a in keys && b in keys && a.hash == b.hash :: a == b
  }

  lemma DistinctIsFunctional(keys: seq<RouteKey>)
    requires Distinct(keys)
    ensures Functional(ElementsOf(keys))
  {
  }

  /** Distinct keys seen as a table from fingerprint to kind. */
  function KeyTable(keys: seq<RouteKey>): (m: map<Hash, Kind>)
    requires Distinct(keys)
    ensures m.Keys == HashesOf(keys)
    ensures forall k | k in keys :: k.hash in m && m[k.hash] == k.kind
  {
    map k | k in keys :: k.hash := k.kind
  }

  /** Processes one more raw key after the keys accepted so far. */
  function Accept(before: seq<RouteKey>, key: RawKey): Option<seq<RouteKey>> {
    var k := Normal(key);
    if !WellFormed(key) then None
    else if k in before then Some(before)
    else if k.hash in HashesOf(before) then None
    else Some(before + [k])
  }

  /** Validation of a whole list, without the limit on its length. */
  function Collect(raw: seq<RawKey>): Option<seq<RouteKey>> {
    if raw == [] then Some([])
    else
      var before := Collect(raw[..|raw| - 1]);
      if before.None? then None else Accept(before.value, raw[|raw| - 1])
  }

  function Validate(raw: seq<RawKey>): Option<seq<RouteKey>> {
    if |raw| > MAX_ROUTE_KEYS then None else Collect(raw)
  }

  lemma NormalSetSnoc(raw: seq<RawKey>)
    requires raw != []
    ensures NormalSet(raw) == NormalSet(raw[..|raw| - 1]) + {Normal(raw[|raw| - 1])}
  {
    var p := raw[..|raw| - 1];
    forall k | k in NormalSet(raw) ensures k in NormalSet(p) + {Normal(raw[|raw| - 1])} {
      var i :| 0 <= i < |raw| && Normal(raw[i]) == k;
      if i < |raw| - 1 {
        assert p[i] == raw[i];
      }
    }
    forall k | k in NormalSet(p) ensures k in NormalSet(raw) {
      var i :| 0 <= i < |p| && Normal(p[i]) == k;
      assert p[i] == raw[i];
    }
  }

  /** An accepted list keeps one copy of every key, loses none and invents none. */
  lemma {:induction false} CollectSound(raw: seq<RawKey>)
    requires Collect(raw).Some?
    ensures Distinct(Collect(raw).value) && |Collect(raw).value| <= |raw|
    ensures ElementsOf(Collect(raw).value) == NormalSet(raw)
  {
    if raw != [] {
      CollectSound(raw[..|raw| - 1]);
      NormalSetSnoc(raw);
      var before := Collect(raw[..|raw| - 1]).value;
      var k := Normal(raw[|raw| - 1]);
      if k !in before {
        assert forall x | x in before + [k] :: x in before || x == k;
        forall i | 0 <= i < |before| ensures before[i].hash != k.hash {
          assert before[i] in before;
        }
      }
    }
  }

  /** A list is rejected only for a malformed key or for one fingerprint under two kinds. */
  lemma {:induction false} CollectComplete(raw: seq<RawKey>)
    requires forall i | 0 <= i < |raw| :: WellFormed(raw[i])
    requires Functional(NormalSet(raw))
    ensures Collect(raw).Some?
  {
    if raw != [] {
      NormalSetSnoc(raw);
      CollectComplete(raw[..|raw| - 1]);
      CollectSound(raw[..|raw| - 1]);
      var before := Collect(raw[..|raw| - 1]).value;
      var k := Normal(raw[|raw| - 1]);
      if k.hash in HashesOf(before) {
        var x :| x in before && x.hash == k.hash;
        assert x in NormalSet(raw);
      }
    }
  }

  lemma {:induction false} CollectWellFormed(raw: seq<RawKey>, i: nat)
    requires Collect(raw).Some? && i < |raw|
    ensures WellFormed(raw[i])
  {
    if i < |raw| - 1 {
      CollectWellFormed(raw[..|raw| - 1], i);
    }
  }

  /** Validation accepts exactly the short, well-formed lists that give no fingerprint two kinds. */
  lemma ValidationExact(raw: seq<RawKey>)
    ensures Validate(raw).Some? <==>
            && |raw| <= MAX_ROUTE_KEYS
            && (forall i | 0 <= i < |raw| :: WellFormed(raw[i]))
            && Functional(NormalSet(raw))
    ensures Validate(raw).Some? ==>
              Distinct(Validate(raw).value) && ElementsOf(Validate(raw).value) == NormalSet(raw)
  {
    if Validate(raw).Some? {
      CollectSound(raw);
      DistinctIsFunctional(Collect(raw).value);
      forall i | 0 <= i < |raw| ensures WellFormed(raw[i]) {
        CollectWellFormed(raw, i);
      }
    } else if |raw| <= MAX_ROUTE_KEYS && (forall i | 0 <= i < |raw| :: WellFormed(raw[i]))
              && Functional(NormalSet(raw)) {
      CollectComplete(raw);
    }
  }

  lemma {:induction false} CollectPrefix(raw: seq<RawKey>, n: nat)
    requires n <= |raw| && Collect(raw[..n]).None?
    ensures Collect(raw).None?
    decreases |raw| - n
  {
    if n == |raw| {
      assert raw[..n] == raw;
    } else {
      assert raw[..n + 1][..n] == raw[..n];
      CollectPrefix(raw, n + 1);
    }
  }

  /** The validation loop, with its early exits. */
  method ValidateKeys(raw: seq<RawKey>) returns (result: Option<seq<RouteKey>>)
    ensures result == Validate(raw)
  {
    if |raw| > MAX_ROUTE_KEYS {
      return None;
    }
    var validated: seq<RouteKey> := [];
    for n := 0 to |raw|
      invariant Collect(raw[..n]) == Some(validated)
    {
      assert raw[..n + 1][..n] == raw[..n];
      var next := Accept(validated, raw[n]);
      if next.None? {
        CollectPrefix(raw, n + 1);
        return None;
      }
      validated := next.value;
    }
    assert raw[..|raw|] == raw;
    result := Some(validated);
  }
}
