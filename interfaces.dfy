/**
 * The local identity resolver of interfaces.js: the host's network interfaces, as the
 * operating system lists them, are flattened into one list of address entries, the
 * entries that are not internal and whose family is "ipv4" (in any letter case) are
 * kept, and their addresses are taken. The first address of the result is what the
 * service treats as the instance's primary address.
 */
module Interfaces {

  /** One address entry of a host network interface. */
  datatype NicEntry = NicEntry(address: string, family: string, internal: bool)

  /** ASCII lower-casing of one character. */
  function LowerChar(c: char): char
  {
    if 'A' <= c <= 'Z' then (c as int - 'A' as int + 'a' as int) as char else c
  }

  function Lower(s: string): string
  {
    seq(|s|, k requires 0 <= k < |s| => LowerChar(s[k]))
  }

  predicate IsIPv4Family(family: string)
  {
    Lower(family) == "ipv4"
  }

  /** The filter's test: not internal, and the family is IPv4. */
  predicate IsExternalIPv4(e: NicEntry)
  {
    !e.internal && IsIPv4Family(e.family)
  }

  /** The reduce/concat step: the interfaces' lists, joined in iteration order. */
  function Flatten(nics: seq<seq<NicEntry>>): seq<NicEntry>
  {
    if nics == [] then [] else Flatten(nics[..|nics| - 1]) + nics[|nics| - 1]
  }

  /** The filter step. */
  function Keep(es: seq<NicEntry>): seq<NicEntry>
  {
    if es == [] then []
    else Keep(es[..|es| - 1]) + (if IsExternalIPv4(es[|es| - 1]) then [es[|es| - 1]] else [])
  }

  /** The map step. */
  function Addresses(es: seq<NicEntry>): seq<string>
  {
    seq(|es|, k requires 0 <= k < |es| => es[k].address)
  }

  /** The exported `interfaces` list: no more addresses than flattened entries. */
  function LocalAddresses(nics: seq<seq<NicEntry>>): (r: seq<string>)
    ensures |r| <= |Flatten(nics)|
  {
    KeepLength(Flatten(nics));
    Addresses(Keep(Flatten(nics)))
  }

  /** Total number of entries over all interfaces. */
  function TotalEntries(nics: seq<seq<NicEntry>>): nat
  {
    if nics == [] then 0 else |nics[0]| + TotalEntries(nics[1..])
  }

  /**
   * The positions of the qualifying entries of `es`, in increasing order: each one
   * qualifies, none repeats or goes backwards, and no qualifying position is missing.
   */
  function Positions(es: seq<NicEntry>): (idx: seq<nat>)
    ensures forall k :: 0 <= k < |idx| ==> idx[k] < |es| && IsExternalIPv4(es[idx[k]])
    ensures forall k, l :: 0 <= k < l < |idx| ==> idx[k] < idx[l]
    ensures forall p :: 0 <= p < |es| && IsExternalIPv4(es[p]) ==> p in idx
  {
    if es == [] then []
    else
      var n := |es| - 1;
      var prefix := Positions(es[..n]);
      assert forall k :: 0 <= k < |prefix| ==> es[prefix[k]] == es[..n][prefix[k]];
      prefix + (if IsExternalIPv4(es[n]) then [n] else [])
  }

  /** The family test is exactly "ipv4" spelled in any mix of upper and lower case. */
  lemma IPv4FamilySpellings(family: string)
    ensures IsIPv4Family(family) <==>
      |family| == 4 && family[0] in "iI" && family[1] in "pP" && family[2] in "vV" && family[3] == '4'
  {
    if |family| == 4 && family[0] in "iI" && family[1] in "pP" && family[2] in "vV" && family[3] == '4' {
      assert Lower(family)[0] == 'i' && Lower(family)[1] == 'p';
      assert Lower(family)[2] == 'v' && Lower(family)[3] == '4';
      assert Lower(family) == "ipv4";
    }
    if IsIPv4Family(family) {
      assert |family| == |Lower(family)| == 4;
      forall k | 0 <= k < 4
        ensures LowerChar(family[k]) == "ipv4"[k]
      {
        assert Lower(family)[k] == "ipv4"[k];
      }
    }
  }

  /** Filtering keeps exactly the entries at the qualifying positions, in order. */
  lemma {:induction false} KeepAtPositions(es: seq<NicEntry>)
    ensures var idx := Positions(es);
      Keep(es) == seq(|idx|, k requires 0 <= k < |idx| => es[idx[k]])
  {
    if es != [] {
      var n := |es| - 1;
      KeepAtPositions(es[..n]);
    }
  }

  /**
   * The exported list, characterised: its k-th address is the address of the k-th
   * qualifying entry of the flattened list. With the contract of Positions this says
   * that every output comes from a qualifying entry, no qualifying entry is dropped,
   * and the order of the flattened list is kept.
   */
  lemma LocalAddressesAtPositions(nics: seq<seq<NicEntry>>)
    ensures var flat := Flatten(nics); var idx := Positions(flat);
      LocalAddresses(nics) == seq(|idx|, k requires 0 <= k < |idx| => flat[idx[k]].address)
  {
    KeepAtPositions(Flatten(nics));
  }

  /** An entry is in the flattened list exactly when it is in one interface's list. */
  lemma {:induction false} FlattenMembership(nics: seq<seq<NicEntry>>, e: NicEntry)
    ensures e in Flatten(nics) <==> exists i :: 0 <= i < |nics| && e in nics[i]
  {
    if nics != [] {
      var n := |nics| - 1;
      FlattenMembership(nics[..n], e);
      assert forall i :: 0 <= i < n ==> nics[..n][i] == nics[i];
    }
  }

  /** Every output address comes from a non-internal IPv4 entry of some interface. */
  lemma LocalAddressSound(nics: seq<seq<NicEntry>>, a: string)
    requires a in LocalAddresses(nics)
    ensures exists i, j ::
      (0 <= i < |nics| && 0 <= j < |nics[i]| && IsExternalIPv4(nics[i][j]) && nics[i][j].address == a)
  {
    LocalAddressesAtPositions(nics);
    var flat := Flatten(nics);
    var idx := Positions(flat);
    var k :| 0 <= k < |idx| && LocalAddresses(nics)[k] == a;
    var e := flat[idx[k]];
    FlattenMembership(nics, e);
    var i :| 0 <= i < |nics| && e in nics[i];
    var j :| 0 <= j < |nics[i]| && nics[i][j] == e;
  }

  /** No qualifying entry is dropped: each contributes its address. */
  lemma LocalAddressComplete(nics: seq<seq<NicEntry>>, i: int, j: int)
    requires 0 <= i < |nics| && 0 <= j < |nics[i]|
    requires IsExternalIPv4(nics[i][j])
    ensures nics[i][j].address in LocalAddresses(nics)
  {
    LocalAddressesAtPositions(nics);
    var flat := Flatten(nics);
    var e := nics[i][j];
    FlattenMembership(nics, e);
    var p :| 0 <= p < |flat| && flat[p] == e;
    var idx := Positions(flat);
    var k :| 0 <= k < |idx| && idx[k] == p;
    assert LocalAddresses(nics)[k] == e.address;
  }

  lemma {:induction false} FlattenConcat(a: seq<seq<NicEntry>>, b: seq<seq<NicEntry>>)
    ensures Flatten(a + b) == Flatten(a) + Flatten(b)
  {
    if b != [] {
      var n := |b| - 1;
      assert (a + b)[..|a + b| - 1] == a + b[..n];
      FlattenConcat(a, b[..n]);
    } else {
      assert a + b == a;
    }
  }

  lemma {:induction false} KeepConcat(a: seq<NicEntry>, b: seq<NicEntry>)
    ensures Keep(a + b) == Keep(a) + Keep(b)
  {
    if b != [] {
      var n := |b| - 1;
      assert (a + b)[..|a + b| - 1] == a + b[..n];
      KeepConcat(a, b[..n]);
    } else {
      assert a + b == a;
    }
  }

  /**
   * Order by interface: the addresses of a list of interfaces followed by another are
   * the first list's addresses followed by the second's.
   */
  lemma LocalAddressesConcat(a: seq<seq<NicEntry>>, b: seq<seq<NicEntry>>)
    ensures LocalAddresses(a + b) == LocalAddresses(a) + LocalAddresses(b)
  {
    FlattenConcat(a, b);
    KeepConcat(Flatten(a), Flatten(b));
  }

  lemma {:induction false} FlattenLength(nics: seq<seq<NicEntry>>)
    ensures |Flatten(nics)| == TotalEntries(nics)
  {
    if nics != [] {
      FlattenConcat([nics[0]], nics[1..]);
      assert [nics[0]] + nics[1..] == nics;
      assert [nics[0]][..0] == [];
      FlattenLength(nics[1..]);
    }
  }

  lemma {:induction false} KeepLength(es: seq<NicEntry>)
    ensures |Keep(es)| <= |es|
  {
    if es != [] {
      KeepLength(es[..|es| - 1]);
    }
  }

  /** There are never more addresses than entries over all interfaces. */
  lemma LocalAddressesBound(nics: seq<seq<NicEntry>>)
    ensures |LocalAddresses(nics)| <= TotalEntries(nics)
  {
    FlattenLength(nics);
    KeepLength(Flatten(nics));
  }

  /**
   * The address the service protects as primary is that of the first non-internal IPv4
   * entry, in interface order then list order: no earlier entry qualifies.
   */
  lemma FirstAddressIsFirstQualifying(nics: seq<seq<NicEntry>>)
    requires LocalAddresses(nics) != []
    ensures var flat := Flatten(nics);
      exists p :: 0 <= p < |flat| && IsExternalIPv4(flat[p]) && flat[p].address == LocalAddresses(nics)[0]
        && forall q :: 0 <= q < p ==> !IsExternalIPv4(flat[q])
  {
    LocalAddressesAtPositions(nics);
    var flat := Flatten(nics);
    var idx := Positions(flat);
    var p := idx[0];
    assert forall q :: 0 <= q < p ==> !IsExternalIPv4(flat[q]);
  }
}
