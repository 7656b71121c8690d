/** The anchored patterns that identifiers must match, and what the validators make of them. */
module Patterns {
  import opened EgressTypes
  import Text
  import Utf8

  /** A character class, as ranges, and how often it may repeat. */
  datatype Item = Item(ranges: seq<(char, char)>, low: nat, high: nat)

  predicate InClass(ranges: seq<(char, char)>, c: char) {
    exists i :: 0 <= i < |ranges| && ranges[i].0 <= c <= ranges[i].1
  }

  ghost predicate AllIn(ranges: seq<(char, char)>, s: string) {
    forall i :: 0 <= i < |s| ==> InClass(ranges, s[i])
  }

  /** The item takes the first k characters. */
  ghost predicate Takes(item: Item, s: string, k: int) {
    item.low <= k <= item.high && k <= |s| && AllIn(item.ranges, s[..k])
  }

  /** The whole string is a match of the items one after the other. */
  ghost predicate Matches(items: seq<Item>, s: string)
    decreases |items|
  {
    if items == [] then s == []
    else exists k: int :: Takes(items[0], s, k) && Matches(items[1..], s[k..])
  }

  /** ^[a-z0-9][a-z0-9-]{2,63}$ */
  const ENDPOINT_ID := [Item([('a', 'z'), ('0', '9')], 1, 1), Item([('a', 'z'), ('0', '9'), ('-', '-')], 2, 63)]

  /** ^[A-Za-z0-9][A-Za-z0-9_-]{7,127}$ */
  const JOB_ID := [
    Item([('A', 'Z'), ('a', 'z'), ('0', '9')], 1, 1),
    Item([('A', 'Z'), ('a', 'z'), ('0', '9'), ('_', '_'), ('-', '-')], 7, 127)]

  /** ^[A-Z]{2}$ */
  const COUNTRY := [Item([('A', 'Z')], 2, 2)]

  lemma OneItem(item: Item, s: string)
    ensures Matches([item], s) <==> item.low <= |s| <= item.high && AllIn(item.ranges, s)
  {
    var items := [item];
    assert items[0] == item && items[1..] == [];
    if item.low <= |s| <= item.high && AllIn(item.ranges, s) {
      assert s[..|s|] == s && s[|s|..] == [];
      assert Takes(items[0], s, |s|) && Matches(items[1..], s[|s|..]);
    }
    if Matches(items, s) {
      var k :| Takes(items[0], s, k) && Matches(items[1..], s[k..]);
      assert s[k..] == [];
      assert s[..k] == s;
    }
  }

  lemma HeadAndItem(head: seq<(char, char)>, item: Item, s: string)
    ensures Matches([Item(head, 1, 1), item], s) <==>
              s != [] && InClass(head, s[0]) && item.low <= |s| - 1 <= item.high && AllIn(item.ranges, s[1..])
  {
    var items := [Item(head, 1, 1), item];
    assert items[0] == Item(head, 1, 1) && items[1..] == [item];
    if s != [] {
      OneItem(item, s[1..]);
      if InClass(head, s[0]) && Matches([item], s[1..]) {
        assert Takes(items[0], s, 1) && Matches(items[1..], s[1..]);
      }
      if Matches(items, s) {
        var k :| Takes(items[0], s, k) && Matches(items[1..], s[k..]);
        assert k == 1 && s[..1][0] == s[0];
      }
    }
  }

  lemma LowerOrDigitIs(c: char)
    ensures InClass([('a', 'z'), ('0', '9')], c) <==> LowerOrDigit(c)
    ensures InClass([('a', 'z'), ('0', '9'), ('-', '-')], c) <==> LowerOrDigit(c) || c == '-'
  {
    var rs := [('a', 'z'), ('0', '9'), ('-', '-')];
    assert rs[0] == ('a', 'z') && rs[1] == ('0', '9') && rs[2] == ('-', '-');
    assert [('a', 'z'), ('0', '9')][0] == ('a', 'z') && [('a', 'z'), ('0', '9')][1] == ('0', '9');
  }

  lemma AlphanumericIs(c: char)
    ensures InClass([('A', 'Z'), ('a', 'z'), ('0', '9')], c) <==> Alphanumeric(c)
    ensures InClass([('A', 'Z'), ('a', 'z'), ('0', '9'), ('_', '_'), ('-', '-')], c) <==>
              Alphanumeric(c) || c == '_' || c == '-'
  {
    var rs := [('A', 'Z'), ('a', 'z'), ('0', '9'), ('_', '_'), ('-', '-')];
    assert rs[0] == ('A', 'Z') && rs[1] == ('a', 'z') && rs[2] == ('0', '9') && rs[3] == ('_', '_')
             && rs[4] == ('-', '-');
    var qs := [('A', 'Z'), ('a', 'z'), ('0', '9')];
    assert qs[0] == ('A', 'Z') && qs[1] == ('a', 'z') && qs[2] == ('0', '9');
  }

  lemma EndpointIDsMatch(id: string)
    ensures ValidEndpointID(id) <==> Matches(ENDPOINT_ID, id)
  {
    HeadAndItem([('a', 'z'), ('0', '9')], ENDPOINT_ID[1], id);
    forall c {
      LowerOrDigitIs(c);
    }
    if id != [] {
      assert forall i :: 1 <= i < |id| ==> id[i] == id[1..][i - 1];
    }
  }

  lemma JobIDsMatch(id: string)
    ensures ValidJobID(id) <==> Matches(JOB_ID, id)
  {
    HeadAndItem([('A', 'Z'), ('a', 'z'), ('0', '9')], JOB_ID[1], id);
    forall c {
      AlphanumericIs(c);
    }
    if id != [] {
      assert forall i :: 1 <= i < |id| ==> id[i] == id[1..][i - 1];
    }
  }

  lemma CountriesMatch(code: string)
    ensures ValidCountry(code) <==> Matches(COUNTRY, code)
  {
    OneItem(COUNTRY[0], code);
    assert [('A', 'Z')][0] == ('A', 'Z');
    assert forall c :: InClass([('A', 'Z')], c) <==> 'A' <= c <= 'Z';
  }

  /** An endpoint is accepted exactly with an ID and a country of these forms, a known
      provider, and a region of 1 to 64 bytes that is not blank. */
  lemma EndpointsAre(e: Endpoint)
    ensures e.Valid() <==>
              && Matches(ENDPOINT_ID, e.id) && Matches(COUNTRY, e.countryCode)
              && e.provider in {"aws", "gcp"}
              && Text.TrimRight(Text.TrimLeft(Text.Of(e.region))) != []
              && |Utf8.Encode(Text.Of(e.region))| <= 64
  {
    EndpointIDsMatch(e.id);
    CountriesMatch(e.countryCode);
    Text.BlankIffTrimmed(Text.Of(e.region));
    Utf8.LengthOfEncode(Text.Of(e.region));
  }
}
