/** Tiered lines-of-code resolution over a scan record (`toNumber` and
    `extractLoc` in loc-limiter.js).

    A field's "numeric loc" is the value `toNumber` yields for it, kept here
    as `Option<int>`: `None` stands for every value that does not coerce to a
    finite number (a missing field included). */
module LocExtractor {
  import opened Wrappers

  /** One entry of a scan's `statusDetails` array: the per-engine breakdown.
      `name` is `None` when the field is absent or not a string. */
  datatype Detail = Detail(name: Option<string>, loc: Option<int>)

  /** A scan record, as listed by the scans endpoint or fetched as details.
      `statusDetails` is `None` when the field is missing or not an array. */
  datatype Scan = Scan(
    id: string,
    status: string,
    loc: Option<int>,
    statusDetails: Option<seq<Detail>>)

  /** Lower-cases one character. Only the ASCII letters are mapped: no other
      character lower-cases to 's', 'a' or 't', so comparing the result with
      "sast" agrees with `toLowerCase`. */
  function LowerChar(c: char): char {
    if 'A' <= c <= 'Z' then (c as int + 32) as char else c
  }

  function LowerCase(s: string): string {
    seq(|s|, i requires 0 <= i < |s| => LowerChar(s[i]))
  }

  /** The entry's name is a string that lower-cases to "sast". */
  predicate IsSastName(name: Option<string>) {
    name.Some? && LowerCase(name.value) == "sast"
  }

  /** The entry's `loc` coerces to a finite number. */
  predicate HasLoc(d: Detail) {
    d.loc.Some?
  }

  /** A sast entry with a numeric `loc`: what the first search looks for. */
  predicate IsSastWithLoc(d: Detail) {
    IsSastName(d.name) && HasLoc(d)
  }

  /** `i` is where `Array.prototype.find` with predicate `p` stops on `s`. */
  ghost predicate IsFirst<T>(s: seq<T>, p: T -> bool, i: int) {
    0 <= i < |s| && p(s[i]) && forall j :: 0 <= j < i ==> !p(s[j])
  }

  /** The position of the first element satisfying `p`, scanning in order. */
  function FindIndex<T>(s: seq<T>, p: T -> bool): (k: Option<nat>)
    ensures k.Some? ==> IsFirst(s, p, k.value)
    ensures k.None? <==> forall j :: 0 <= j < |s| ==> !p(s[j])
  {
    if |s| == 0 then None
    else if p(s[0]) then Some(0)
    else
      match FindIndex(s[1..], p)
      case None => None
      case Some(i) => Some(i + 1)
  }

  /** The LOC of a scan record, first match wins: the top-level `loc`, then
      the first numeric sast entry, then the first entry with any numeric
      `loc`; `None` when no tier applies. */
  function ExtractLoc(r: Scan): Option<int> {
    if r.loc.Some? then r.loc
    else
      match r.statusDetails
      case None => None
      case Some(details) =>
        match FindIndex(details, IsSastWithLoc)
        case Some(i) => details[i].loc
        case None =>
          match FindIndex(details, HasLoc)
          case Some(i) => details[i].loc
          case None => None
  }

  /** `find` can stop at one place only. */
  lemma IsFirstUnique<T>(s: seq<T>, p: T -> bool, i: int, j: int)
    requires IsFirst(s, p, i) && IsFirst(s, p, j)
    ensures i == j
  {
  }

  /** Tier 1: a numeric top-level `loc` is returned whatever the details hold. */
  lemma TopLevelLocWins(r: Scan)
    requires r.loc.Some?
    ensures ExtractLoc(r) == r.loc
    ensures forall ds :: ExtractLoc(r.(statusDetails := ds)) == r.loc
  {
  }

  /** Tier 2: without a top-level value, the first sast entry carrying a
      numeric `loc` is returned, even when earlier entries carry one too. */
  lemma FirstSastEntryWins(r: Scan, i: int)
    requires r.loc.None? && r.statusDetails.Some?
    requires IsFirst(r.statusDetails.value, IsSastWithLoc, i)
    ensures ExtractLoc(r) == r.statusDetails.value[i].loc
    ensures ExtractLoc(r).Some?
  {
    var k := FindIndex(r.statusDetails.value, IsSastWithLoc);
    IsFirstUnique(r.statusDetails.value, IsSastWithLoc, i, k.value);
  }

  /** Tier 3: with neither a top-level value nor a numeric sast entry, the
      first entry in order with a numeric `loc` is returned. */
  lemma FirstNumericEntryFallback(r: Scan, i: int)
    requires r.loc.None? && r.statusDetails.Some?
    requires forall j :: 0 <= j < |r.statusDetails.value| ==> !IsSastWithLoc(r.statusDetails.value[j])
    requires IsFirst(r.statusDetails.value, HasLoc, i)
    ensures ExtractLoc(r) == r.statusDetails.value[i].loc
    ensures ExtractLoc(r).Some?
  {
    var k := FindIndex(r.statusDetails.value, HasLoc);
    IsFirstUnique(r.statusDetails.value, HasLoc, i, k.value);
  }

  /** Tier 4: the LOC is unresolved exactly when there is no top-level value
      and `statusDetails` is not an array or has no numeric `loc` at all. */
  lemma UnresolvedIff(r: Scan)
    ensures ExtractLoc(r).None? <==>
      r.loc.None? &&
      (r.statusDetails.None? ||
       forall j :: 0 <= j < |r.statusDetails.value| ==> !HasLoc(r.statusDetails.value[j]))
  {
    if r.loc.None? && r.statusDetails.Some? {
      var ds := r.statusDetails.value;
      var k := FindIndex(ds, IsSastWithLoc);
      if k.Some? {
        assert HasLoc(ds[k.value]);
      }
    }
  }

  /** The sequence `s` with its element at `k` taken out. */
  function RemoveAt<T>(s: seq<T>, k: int): (t: seq<T>)
    requires 0 <= k < |s|
    ensures |t| == |s| - 1
    ensures forall j :: 0 <= j < k ==> t[j] == s[j]
    ensures forall j :: k <= j < |t| ==> t[j] == s[j + 1]
  {
    s[..k] + s[k + 1..]
  }

  /** Taking out an element that `p` rejects leaves the found element as it was. */
  lemma FindIndexIgnoresRejected<T>(s: seq<T>, p: T -> bool, k: int)
    requires 0 <= k < |s| && !p(s[k])
    ensures FindIndex(s, p).None? <==> FindIndex(RemoveAt(s, k), p).None?
    ensures FindIndex(s, p).Some? ==>
      s[FindIndex(s, p).value] == RemoveAt(s, k)[FindIndex(RemoveAt(s, k), p).value]
  {
    var t := RemoveAt(s, k);
    var a := FindIndex(s, p);
    if a.Some? {
      var i := a.value;
      var i' := if i < k then i else i - 1;
      assert t[i'] == s[i];
      assert IsFirst(t, p, i') by {
        forall j | 0 <= j < i'
          ensures !p(t[j])
        {
          if j < k { assert t[j] == s[j]; } else { assert t[j] == s[j + 1]; }
        }
      }
      IsFirstUnique(t, p, i', FindIndex(t, p).value);
    } else {
      forall j | 0 <= j < |t|
        ensures !p(t[j])
      {
        if j < k { assert t[j] == s[j]; } else { assert t[j] == s[j + 1]; }
      }
    }
  }

  /** An entry without a numeric `loc` never decides the result: a sast entry
      lacking one is passed over, and so is any other such entry. */
  lemma EntryWithoutLocIsIgnored(r: Scan, k: int)
    requires r.statusDetails.Some? && 0 <= k < |r.statusDetails.value|
    requires !HasLoc(r.statusDetails.value[k])
    ensures ExtractLoc(r) == ExtractLoc(r.(statusDetails := Some(RemoveAt(r.statusDetails.value, k))))
  {
    var ds := r.statusDetails.value;
    FindIndexIgnoresRejected(ds, IsSastWithLoc, k);
    FindIndexIgnoresRejected(ds, HasLoc, k);
  }

  /** The sast test ignores letter case and nothing else. */
  lemma SastNameIff(n: string)
    ensures IsSastName(Some(n)) <==>
      |n| == 4 && n[0] in "sS" && n[1] in "aA" && n[2] in "sS" && n[3] in "tT"
  {
    if IsSastName(Some(n)) {
      assert LowerCase(n)[0] == 's' && LowerCase(n)[1] == 'a';
      assert LowerCase(n)[2] == 's' && LowerCase(n)[3] == 't';
    }
    if |n| == 4 && n[0] in "sS" && n[1] in "aA" && n[2] in "sS" && n[3] in "tT" {
      assert LowerCase(n) == "sast";
    }
  }
}
