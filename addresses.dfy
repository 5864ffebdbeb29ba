/** The one-line postal address the tracker writes next to a sample:
    the four parts joined as "street, locality, state country" and then
    stripped of every leading and trailing comma and space (Python's `.strip(', ')`). */
module Addresses {
  import opened Wrappers

  /** The snapshot's address record. */
  datatype Address = Address(
    streetAddress: Entry<string>,
    locality: Entry<string>,
    stateCode: Entry<string>,
    country: Entry<string>)

  /** The address used when an item has no `address` key (`item.get('address', {})`). */
  const NoAddress := Address(Absent, Absent, Absent, Absent)

  /** How the f-string prints `address.get(part, '')`: a missing part is "", a null one
      is formatted as "None". */
  function PartText(e: Entry<string>): (r: string)
    ensures e.Absent? ==> r == ""
    ensures e.Null? ==> r == "None"
    ensures e.Present? ==> r == e.value
  {
    match e
    case Absent => ""
    case Null => "None"
    case Present(t) => t
  }

  /** The characters `.strip(', ')` removes. */
  predicate IsSeparator(c: char) {
    c == ',' || c == ' '
  }

  predicate AllSeparators(s: string) {
    forall k | 0 <= k < |s| :: IsSeparator(s[k])
  }

  /** Number of leading separators of `s`. */
  function LeadLen(s: string): (n: nat)
    ensures n <= |s|
    ensures forall k | 0 <= k < n :: IsSeparator(s[k])
    ensures n < |s| ==> !IsSeparator(s[n])
  {
    if s == [] || !IsSeparator(s[0]) then 0
    else
      var m := LeadLen(s[1..]);
      assert forall k | 1 <= k < 1 + m :: s[k] == s[1..][k - 1];
      1 + m
  }

  /** Number of trailing separators of `s`. */
  function TrailLen(s: string): (n: nat)
    ensures n <= |s|
    ensures forall k | |s| - n <= k < |s| :: IsSeparator(s[k])
    ensures n < |s| ==> !IsSeparator(s[|s| - 1 - n])
  {
    if s == [] || !IsSeparator(s[|s| - 1]) then 0
    else
      var m := TrailLen(s[..|s| - 1]);
      1 + m
  }

  /** `r` is what stripping separators from both ends of `s` leaves: a slice of `s`
      whose ends are not separators, with only separators cut away on either side. */
  ghost predicate IsStripOf(s: string, r: string) {
    (r == [] || (!IsSeparator(r[0]) && !IsSeparator(r[|r| - 1]))) &&
    exists i, j :: 0 <= i <= j <= |s| && s[i..j] == r &&
      (forall k | 0 <= k < i :: IsSeparator(s[k])) &&
      (forall k | j <= k < |s| :: IsSeparator(s[k]))
  }

  /** Python's `s.strip(', ')`. */
  function Strip(s: string): (r: string)
    ensures IsStripOf(s, r)
  {
    var i := LeadLen(s);
    var t := s[i..];
    var n := TrailLen(t);
    var r := t[..|t| - n];
    assert s[i..i + |r|] == r;
    assert forall k | i + |r| <= k < |s| :: s[k] == t[k - i];
    assert r != [] ==> r[0] == s[i] && r[|r| - 1] == t[|t| - 1 - n];
    r
  }

  /** The leading run of separators ends at the first non-separator. */
  lemma LeadLenAt(s: string, i: nat)
    requires i <= |s| && forall k | 0 <= k < i :: IsSeparator(s[k])
    requires i < |s| ==> !IsSeparator(s[i])
    ensures LeadLen(s) == i
  {
  }

  /** The trailing run of separators starts after the last non-separator. */
  lemma TrailLenAt(s: string, m: nat)
    requires m <= |s| && forall k | |s| - m <= k < |s| :: IsSeparator(s[k])
    requires m < |s| ==> !IsSeparator(s[|s| - 1 - m])
    ensures TrailLen(s) == m
  {
  }

  /** A string of separators only strips to nothing. */
  lemma StripSeparators(s: string)
    requires AllSeparators(s)
    ensures Strip(s) == []
  {
    LeadLenAt(s, |s|);
  }

  /** Cutting only separators from both ends, and stopping at a non-separator on each
      side, is what `Strip` does. */
  lemma StripAt(s: string, i: nat, j: nat)
    requires i < j <= |s|
    requires forall k | 0 <= k < i :: IsSeparator(s[k])
    requires forall k | j <= k < |s| :: IsSeparator(s[k])
    requires !IsSeparator(s[i]) && !IsSeparator(s[j - 1])
    ensures Strip(s) == s[i..j]
  {
    LeadLenAt(s, i);
    var t := s[i..];
    assert TrailLen(t) == |t| - (j - i) by {
      assert forall k | j - i - 1 <= k < |t| :: t[k] == s[k + i];
      TrailLenAt(t, |t| - (j - i));
    }
    assert t[..j - i] == s[i..j];
  }

  /** Stripping has exactly one possible result: `IsStripOf` defines `Strip`. */
  lemma StripUnique(s: string, r: string)
    requires IsStripOf(s, r)
    ensures r == Strip(s)
  {
    var i, j :| 0 <= i <= j <= |s| && s[i..j] == r &&
      (forall k | 0 <= k < i :: IsSeparator(s[k])) &&
      (forall k | j <= k < |s| :: IsSeparator(s[k]));
    if i == j {
      StripSeparators(s);
    } else {
      assert s[i] == r[0] && s[j - 1] == r[|r| - 1];
      StripAt(s, i, j);
    }
  }

  /** The f-string before stripping: the four parts in order, with ", ", ", " and " " between them. */
  function Joined(a: Address): (r: string)
    ensures var st, lo, sc, co := PartText(a.streetAddress), PartText(a.locality),
                                  PartText(a.stateCode), PartText(a.country);
      |r| == |st| + |lo| + |sc| + |co| + 5 &&
      r[..|st|] == st &&
      r[|st|..|st| + 2] == ", " &&
      r[|st| + 2..|st| + 2 + |lo|] == lo &&
      r[|st| + 2 + |lo|..|st| + 4 + |lo|] == ", " &&
      r[|st| + 4 + |lo|..|st| + 4 + |lo| + |sc|] == sc &&
      r[|r| - |co| - 1] == ' ' &&
      r[|r| - |co|..] == co
  {
    var st, lo, sc, co := PartText(a.streetAddress), PartText(a.locality),
                          PartText(a.stateCode), PartText(a.country);
    var head := st + ", " + lo + ", " + sc + " ";
    var r := head + co;
    assert r[..|head|] == head && r[|head|..] == co;
    assert head[..|st|] == st && head[|st|..|st| + 2] == ", ";
    assert head[|st| + 2..|st| + 2 + |lo|] == lo;
    assert head[|st| + 2 + |lo|..|st| + 4 + |lo|] == ", ";
    assert head[|st| + 4 + |lo|..|st| + 4 + |lo| + |sc|] == sc;
    r
  }

  /** The address text written to the `track` log: the joined parts, stripped. */
  function FullAddress(a: Address): (r: string)
    ensures IsStripOf(Joined(a), r)
    ensures r == [] || (!IsSeparator(r[0]) && !IsSeparator(r[|r| - 1]))
    ensures |r| <= |Joined(a)|
  {
    Strip(Joined(a))
  }

  /** An address with four empty parts becomes the empty string. */
  lemma EmptyAddress(a: Address)
    requires PartText(a.streetAddress) == "" && PartText(a.locality) == ""
    requires PartText(a.stateCode) == "" && PartText(a.country) == ""
    ensures FullAddress(a) == ""
  {
    var s := Joined(a);
    assert s == ", ,  ";
    assert s[0..0] == "" && s[..0] == "" && s[0..] == s;
    StripUnique(s, "");
  }

  /** When the street does not begin and the country does not end with a separator,
      nothing is stripped: the result is the joined text itself. */
  lemma FullAddressUnstripped(a: Address)
    requires PartText(a.streetAddress) != [] && !IsSeparator(PartText(a.streetAddress)[0])
    requires PartText(a.country) != []
    requires !IsSeparator(PartText(a.country)[|PartText(a.country)| - 1])
    ensures FullAddress(a) == Joined(a)
  {
    var s := Joined(a);
    assert s[0] == PartText(a.streetAddress)[0];
    assert s[|s| - 1] == PartText(a.country)[|PartText(a.country)| - 1];
    assert s[0..|s|] == s && s[..0] == [] && s[|s|..] == [];
    StripUnique(s, s);
  }

  /** With only the country known, the address is the country alone: the empty parts
      leave only separators in front of it, and they are all stripped. */
  lemma CountryOnly(c: string)
    requires c != [] && !IsSeparator(c[0]) && !IsSeparator(c[|c| - 1])
    ensures FullAddress(Address(Absent, Absent, Absent, Present(c))) == c
  {
    var s := Joined(Address(Absent, Absent, Absent, Present(c)));
    assert s == ", ,  " + c;
    assert s[5..|s|] == c && AllSeparators(s[..5]) && s[|s|..] == [];
    StripUnique(s, c);
  }

  /** A null street is printed, not dropped: the address then begins with "None". */
  lemma NullStreetPrinted(a: Address)
    requires a.streetAddress.Null?
    ensures |FullAddress(a)| >= 4 && FullAddress(a)[..4] == "None"
  {
    var s := Joined(a);
    assert s[..4] == "None";
    assert s[0] == 'N' && s[3] == 'e';
    LeadLenAt(s, 0);
    assert s[0..] == s;
    var n := TrailLen(s);
    assert !IsSeparator(s[3]);
    assert n <= |s| - 4;
    assert Strip(s) == s[..|s| - n];
    assert s[..|s| - n][..4] == s[..4];
  }
}
