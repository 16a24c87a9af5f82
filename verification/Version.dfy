/**
 Version strings, their order, and the search for the newest development tag
 (internal/release/release.go). The order is that of item 11 of Semantic
 Versioning 2.0.0, restricted to the pre-release tag `dev`.
 */
module Version {
  import opened Basics
  import opened Text

  datatype Semver = Semver(major: int, minor: int, patch: int, dev: bool)

  // ----- order -----

  function CmpInt(a: int, b: int): int {
    if a < b then -1 else if a > b then 1 else 0
  }

  function CompareVersions(a: Semver, b: Semver): int {
    if a.major != b.major then CmpInt(a.major, b.major)
    else if a.minor != b.minor then CmpInt(a.minor, b.minor)
    else if a.patch != b.patch then CmpInt(a.patch, b.patch)
    else if a.dev != b.dev then (if a.dev then -1 else 1)
    else 0
  }

  /** Precedence as the standard words it: the numbers first, then a pre-release below its release. */
  predicate Precedes(a: Semver, b: Semver) {
    || a.major < b.major
    || (a.major == b.major && a.minor < b.minor)
    || (a.major == b.major && a.minor == b.minor && a.patch < b.patch)
    || (a.major == b.major && a.minor == b.minor && a.patch == b.patch && a.dev && !b.dev)
  }

  /** `CompareVersions` is precedence, which is a total order. */
  lemma CompareIsTotalOrder(a: Semver, b: Semver, c: Semver)
    ensures CompareVersions(a, b) < 0 <==> Precedes(a, b)
    ensures CompareVersions(a, b) == 0 <==> a == b
    ensures CompareVersions(a, b) == -CompareVersions(b, a)
    ensures CompareVersions(a, b) <= 0 && CompareVersions(b, c) <= 0 ==> CompareVersions(a, c) <= 0
    ensures CompareVersions(a, b) < 0 && CompareVersions(b, c) <= 0 ==> CompareVersions(a, c) < 0
  {}

  /** Nothing lies between a development build and its release. */
  lemma DevIsJustBelowRelease(v: Semver, w: Semver)
    requires !v.dev
    ensures CompareVersions(v.(dev := true), v) < 0
    ensures CompareVersions(v.(dev := true), w) < 0 ==> CompareVersions(v, w) <= 0
  {}

  // ----- parsing -----

  /** `strings.Split(s, ".")`. */
  function Split(s: string): (parts: seq<string>)
    ensures parts != []
  {
    if s == "" then [""]
    else
      var rest := Split(s[1..]);
      if s[0] == '.' then [""] + rest else [[s[0]] + rest[0]] + rest[1..]
  }

  predicate HasSuffix(s: string, t: string) {
    |t| <= |s| && s[|s| - |t|..] == t
  }

  /** The numbers of a version, or `None` if some part is not one. */
  function Numbers(parts: seq<string>): (r: Option<seq<int>>)
    ensures r.Some? ==> |r.value| == |parts|
    decreases |parts|
  {
    if parts == [] then Some([])
    else
      var n := |parts| - 1;
      match (Numbers(parts[..n]), ParseInt(parts[n]))
      case (Some(ns), Some(m)) => Some(ns + [m])
      case _ => None
  }

  function ParsedVersion(v: string): Option<Semver> {
    var dev := HasSuffix(v, "-dev");
    var parts := Split(if dev then v[..|v| - 4] else v);
    if |parts| != 3 then None
    else match Numbers(parts)
      case None => None
      case Some(ns) => Some(Semver(ns[0], ns[1], ns[2], dev))
  }

  method ParseVersion(v: string) returns (r: Option<Semver>)
    ensures r == ParsedVersion(v)
  {
    var dev := HasSuffix(v, "-dev");
    var parts := Split(if dev then v[..|v| - 4] else v);
    if |parts| != 3 {
      return None;
    }
    var nums := ParseNumbers(parts);
    if nums.None? {
      return None;
    }
    r := Some(Semver(nums.value[0], nums.value[1], nums.value[2], dev));
  }

  /** The loop over the parts: the first that is not a number ends it. */
  method ParseNumbers(parts: seq<string>) returns (r: Option<seq<int>>)
    ensures r == Numbers(parts)
  {
    var nums := [];
    var i := 0;
    while i < |parts|
      invariant i <= |parts| && Numbers(parts[..i]) == Some(nums)
    {
      var n := ParseInt(parts[i]);
      if n.None? {
        NoNumbers(parts, i);
        return None;
      }
      assert parts[..i + 1] == parts[..i] + [parts[i]];
      OneMoreNumber(parts[..i], nums, parts[i]);
      nums := nums + [n.value];
      i := i + 1;
    }
    assert parts[..i] == parts;
    r := Some(nums);
  }

  lemma {:induction false} NoNumbers(parts: seq<string>, i: nat)
    requires i < |parts| && ParseInt(parts[i]).None?
    ensures Numbers(parts).None?
    decreases |parts|
  {
    if i < |parts| - 1 {
      NoNumbers(parts[..|parts| - 1], i);
    }
  }

  /** How a version is written. */
  function Written(major: nat, minor: nat, patch: nat, dev: bool): string {
    Print(major) + "." + Print(minor) + "." + Print(patch) + Suffix(dev)
  }

  lemma SplitWritten(a: string, b: string, c: string)
    requires NoDot(a) && NoDot(b) && NoDot(c)
    ensures Split(a + "." + b + "." + c) == [a, b, c]
  {
    SplitAfter(c, "");
    SplitAfter(b, c);
    SplitAfter(a, b + "." + c);
    assert a + "." + b + "." + c == a + "." + (b + "." + c);
  }

  lemma OneMoreNumber(parts: seq<string>, ns: seq<int>, p: string)
    requires Numbers(parts) == Some(ns) && ParseInt(p).Some?
    ensures Numbers(parts + [p]) == Some(ns + [ParseInt(p).value])
  {
    assert (parts + [p])[..|parts|] == parts;
  }

  lemma NumbersOfThree(a: string, b: string, c: string)
    requires ParseInt(a).Some? && ParseInt(b).Some? && ParseInt(c).Some?
    ensures Numbers([a, b, c]) == Some([ParseInt(a).value, ParseInt(b).value, ParseInt(c).value])
  {
    OneMoreNumber([], [], a);
    OneMoreNumber([] + [a], [] + [ParseInt(a).value], b);
    OneMoreNumber([] + [a] + [b], [] + [ParseInt(a).value] + [ParseInt(b).value], c);
    assert [] + [a] + [b] + [c] == [a, b, c];
    var x, y, z := ParseInt(a).value, ParseInt(b).value, ParseInt(c).value;
    assert [] + [x] + [y] + [z] == [x, y, z];
  }

  lemma PrintParses(n: nat)
    requires n <= MAX_INT64
    ensures ParseInt(Print(n)) == Some(n)
  {
    ValueOfPrint(n);
    ParseDigits(Print(n));
  }

  // ----- exactly which texts are versions -----

  predicate NoDot(w: string) {
    forall i :: 0 <= i < |w| ==> w[i] != '.'
  }

  function Suffix(dev: bool): string {
    if dev then "-dev" else ""
  }

  /** Three integers, joined by dots. */
  predicate AreNumbers(a: string, b: string, c: string, v: Semver) {
    ParseInt(a) == Some(v.major) && ParseInt(b) == Some(v.minor) && ParseInt(c) == Some(v.patch)
  }

  /** A spelling of a version: three texts that are its numbers, and the suffix of a development build. */
  ghost predicate Spells(s: string, v: Semver) {
    exists a, b, c :: AreNumbers(a, b, c, v) && s == a + "." + b + "." + c + Suffix(v.dev)
  }

  lemma IntHasNoDot(w: string)
    requires ParseInt(w).Some?
    ensures w != "" && NoDot(w) && IsDigit(w[|w| - 1])
  {
    var signed := w[0] == '+' || w[0] == '-';
    var digits := if signed then w[1..] else w;
    assert forall i :: 0 <= i < |w| ==>
             w[i] == (if signed then (if i == 0 then w[0] else digits[i - 1]) else digits[i]);
  }

  lemma {:induction false} SplitAfter(w: string, rest: string)
    requires NoDot(w)
    ensures Split(w) == [w]
    ensures Split(w + "." + rest) == [w] + Split(rest)
    decreases |w|
  {
    if w == "" {
      assert w + "." + rest == "." + rest && ("." + rest)[1..] == rest;
    } else {
      SplitAfter(w[1..], rest);
      assert (w + "." + rest)[1..] == w[1..] + "." + rest;
      assert [w[0]] + w[1..] == w;
    }
  }

  /** The parts with dots between them. */
  function Joined(parts: seq<string>): string
    requires parts != []
  {
    if |parts| == 1 then parts[0] else parts[0] + "." + Joined(parts[1..])
  }

  lemma {:induction false} JoinedIsSplit(s: string)
    ensures Joined(Split(s)) == s
    decreases |s|
  {
    if s == "" {
    } else {
      var rest := Split(s[1..]);
      JoinedIsSplit(s[1..]);
      assert s == [s[0]] + s[1..];
      if s[0] == '.' {
        assert Split(s)[1..] == rest;
        assert Joined(Split(s)) == "" + "." + Joined(rest);
      } else {
        JoinedFirst([s[0]], rest);
      }
    }
  }

  lemma JoinedFirst(w: string, parts: seq<string>)
    requires parts != []
    ensures Joined([w + parts[0]] + parts[1..]) == w + Joined(parts)
  {
    if |parts| > 1 {
      assert ([w + parts[0]] + parts[1..])[1..] == parts[1..];
      Associate(w, parts[0], ".");
      Associate(w, parts[0] + ".", Joined(parts[1..]));
    }
  }

  lemma JoinedThree(parts: seq<string>)
    requires |parts| == 3
    ensures Joined(parts) == parts[0] + "." + parts[1] + "." + parts[2]
  {
    assert parts[1..][1..] == parts[2..] && Joined(parts[2..]) == parts[2];
    assert Joined(parts[1..]) == parts[1] + "." + parts[2];
    assert parts[0] + "." + (parts[1] + "." + parts[2]) == parts[0] + "." + parts[1] + "." + parts[2];
  }

  lemma LastNumber(parts: seq<string>, ns: seq<int>)
    requires parts != [] && Numbers(parts) == Some(ns)
    ensures var n := |parts| - 1;
            |ns| == n + 1 && Numbers(parts[..n]) == Some(ns[..n]) && ParseInt(parts[n]) == Some(ns[n])
  {}

  lemma NumbersAreInts(parts: seq<string>, ns: seq<int>)
    requires |parts| == 3 && Numbers(parts) == Some(ns)
    ensures |ns| == 3 && forall i :: 0 <= i < 3 ==> ParseInt(parts[i]) == Some(ns[i])
  {
    LastNumber(parts, ns);
    LastNumber(parts[..2], ns[..2]);
    LastNumber(parts[..2][..1], ns[..2][..1]);
  }

  lemma SpelledParses(a: string, b: string, c: string, v: Semver)
    requires AreNumbers(a, b, c, v)
    ensures ParsedVersion(a + "." + b + "." + c + Suffix(v.dev)) == Some(v)
  {
    IntHasNoDot(a);
    IntHasNoDot(b);
    IntHasNoDot(c);
    var body := a + "." + b + "." + c;
    SplitWritten(a, b, c);
    NumbersOfThree(a, b, c);
    assert body[|body| - 1] == c[|c| - 1];
    SuffixIsSeen(body, v.dev);
  }

  /** A text that ends in a digit has no suffix of its own. */
  lemma SuffixIsSeen(body: string, dev: bool)
    requires body != "" && IsDigit(body[|body| - 1])
    ensures HasSuffix(body + Suffix(dev), "-dev") == dev
    ensures var s := body + Suffix(dev); body == if dev then s[..|s| - 4] else s
  {
    var s := body + Suffix(dev);
    if dev {
      assert s[..|s| - 4] == body && s[|s| - 4..] == "-dev";
    } else {
      assert s == body && "-dev"[3] == 'v';
      assert |s| >= 4 ==> s[|s| - 4..][3] == s[|s| - 1];
    }
  }

  lemma ParsedSpells(s: string, v: Semver)
    requires ParsedVersion(s) == Some(v)
    ensures Spells(s, v)
  {
    var body := if v.dev then s[..|s| - 4] else s;
    var parts := Split(body);
    JoinedIsSplit(body);
    JoinedThree(parts);
    NumbersAreInts(parts, Numbers(parts).value);
    assert AreNumbers(parts[0], parts[1], parts[2], v);
    assert s == parts[0] + "." + parts[1] + "." + parts[2] + Suffix(v.dev);
  }

  /** A text parses to a version exactly if it spells it. */
  lemma ParsesIffSpelled(s: string, v: Semver)
    ensures ParsedVersion(s) == Some(v) <==> Spells(s, v)
  {
    if ParsedVersion(s) == Some(v) {
      ParsedSpells(s, v);
    }
    if Spells(s, v) {
      var a, b, c :| AreNumbers(a, b, c, v) && s == a + "." + b + "." + c + Suffix(v.dev);
      SpelledParses(a, b, c, v);
    }
  }

  /** A version written out parses back. */
  lemma ReadsBackWritten(major: nat, minor: nat, patch: nat, dev: bool)
    requires major <= MAX_INT64 && minor <= MAX_INT64 && patch <= MAX_INT64
    ensures ParsedVersion(Written(major, minor, patch, dev)) == Some(Semver(major, minor, patch, dev))
  {
    PrintParses(major);
    PrintParses(minor);
    PrintParses(patch);
    SpelledParses(Print(major), Print(minor), Print(patch), Semver(major, minor, patch, dev));
  }

  // ----- newer -----

  predicate IsNewer(current: string, latest: string) {
    match (ParsedVersion(current), ParsedVersion(latest))
    case (Some(c), Some(l)) => CompareVersions(l, c) > 0
    case _ => false
  }

  /** On parseable versions `IsNewer` is a strict order, total up to equal versions; elsewhere it is false. */
  lemma NewerIsStrictOrder(a: string, b: string, c: string)
    ensures !IsNewer(a, a)
    ensures IsNewer(a, b) && IsNewer(b, c) ==> IsNewer(a, c)
    ensures ParsedVersion(a).Some? && ParsedVersion(b).Some? ==>
              IsNewer(a, b) || IsNewer(b, a) || ParsedVersion(a) == ParsedVersion(b)
    ensures ParsedVersion(a).None? || ParsedVersion(b).None? ==> !IsNewer(a, b)
  {}

  // ----- the newest development tag -----

  const PER_PAGE := 100
  const MAX_PAGES := 10

  /** Page `page` of a tag list, as served; pages count from 1. */
  function Page(tags: seq<string>, page: nat): seq<string>
    requires page >= 1
  {
    var from, to := Min(PER_PAGE * (page - 1), |tags|), Min(PER_PAGE * page, |tags|);
    tags[from..to]
  }

  function TrimV(s: string): string {
    if s != "" && s[0] == 'v' then s[1..] else s
  }

  /** The development version a tag names. */
  function DevVersion(tag: string): Option<Semver> {
    match ParsedVersion(TrimV(tag))
    case None => None
    case Some(v) => if v.dev then Some(v) else None
  }

  lemma SpellingHasNoV(s: string, v: Semver)
    requires Spells(s, v)
    ensures s != "" && s[0] != 'v'
  {
    var a, b, c :| AreNumbers(a, b, c, v) && s == a + "." + b + "." + c + Suffix(v.dev);
    IntHasNoDot(a);
    assert s[0] == a[0];
  }

  /** A tag names a development version exactly if it spells one, with or without a "v" before it. */
  lemma DevTagsAreSpelled(tag: string, v: Semver)
    ensures DevVersion(tag) == Some(v) <==> v.dev && (Spells(tag, v) || ("v" <= tag && Spells(tag[1..], v)))
  {
    ParsesIffSpelled(TrimV(tag), v);
    if Spells(tag, v) {
      SpellingHasNoV(tag, v);
    }
  }

  /** So every development version written out is one, with or without the "v". */
  lemma WrittenDevTags(major: nat, minor: nat, patch: nat)
    requires major <= MAX_INT64 && minor <= MAX_INT64 && patch <= MAX_INT64
    ensures var s, v := Written(major, minor, patch, true), Semver(major, minor, patch, true);
            DevVersion(s) == Some(v) && DevVersion("v" + s) == Some(v)
    ensures DevVersion(Written(major, minor, patch, false)) == None
  {
    var s, v := Written(major, minor, patch, true), Semver(major, minor, patch, true);
    ReadsBackWritten(major, minor, patch, true);
    ReadsBackWritten(major, minor, patch, false);
    ParsesIffSpelled(s, v);
    DevTagsAreSpelled(s, v);
    assert ("v" + s)[1..] == s && "v" <= "v" + s;
    DevTagsAreSpelled("v" + s, v);
    var plain := Written(major, minor, patch, false);
    ParsesIffSpelled(plain, Semver(major, minor, patch, false));
    SpellingHasNoV(plain, Semver(major, minor, patch, false));
  }

  /** The first greatest development tag of a list: no other is greater, none before it is as great. */
  ghost predicate IsFirstGreatest(tags: seq<string>, best: Option<Semver>, tag: string) {
    match best
    case None => forall i :: 0 <= i < |tags| ==> DevVersion(tags[i]).None?
    case Some(v) =>
      exists k :: 0 <= k < |tags| && IsFirstAt(tags, v, tag, k)
  }

  ghost predicate IsFirstAt(tags: seq<string>, v: Semver, tag: string, k: nat)
    requires k < |tags|
  {
    && tags[k] == tag && DevVersion(tag) == Some(v)
    && NoneAbove(tags, v)
    && (forall i :: 0 <= i < k && DevVersion(tags[i]).Some? ==> CompareVersions(DevVersion(tags[i]).value, v) < 0)
  }

  /** No development tag of a list is above `v`. */
  ghost predicate NoneAbove(tags: seq<string>, v: Semver) {
    forall i :: 0 <= i < |tags| && DevVersion(tags[i]).Some? ==> CompareVersions(DevVersion(tags[i]).value, v) <= 0
  }

  lemma AllBelowNew(tags: seq<string>, best: Semver, v: Semver)
    requires NoneAbove(tags, best) && CompareVersions(v, best) > 0
    ensures forall i :: 0 <= i < |tags| && DevVersion(tags[i]).Some? ==>
              CompareVersions(DevVersion(tags[i]).value, v) < 0
  {
    forall i | 0 <= i < |tags| && DevVersion(tags[i]).Some?
      ensures CompareVersions(DevVersion(tags[i]).value, v) < 0
    {
      BelowBelow(DevVersion(tags[i]).value, best, v);
    }
  }

  lemma BelowBelow(a: Semver, b: Semver, c: Semver)
    requires CompareVersions(a, b) <= 0 && CompareVersions(c, b) > 0
    ensures CompareVersions(a, c) < 0
  {}

  lemma NewBest(tags: seq<string>, next: string, v: Semver)
    requires DevVersion(next) == Some(v)
    requires forall i :: 0 <= i < |tags| && DevVersion(tags[i]).Some? ==>
               CompareVersions(DevVersion(tags[i]).value, v) < 0
    ensures IsFirstGreatest(tags + [next], Some(v), next)
  {
    var all := tags + [next];
    assert forall i :: 0 <= i < |tags| ==> all[i] == tags[i];
    assert IsFirstAt(all, v, next, |tags|);
  }

  lemma KeepBest(tags: seq<string>, next: string, best: Semver, tag: string, k: nat)
    requires k < |tags| && IsFirstAt(tags, best, tag, k)
    requires DevVersion(next).Some? ==> CompareVersions(DevVersion(next).value, best) <= 0
    ensures IsFirstGreatest(tags + [next], Some(best), tag)
  {
    var all := tags + [next];
    assert forall i :: 0 <= i < |tags| ==> all[i] == tags[i];
    assert IsFirstAt(all, best, tag, k);
  }

  lemma FirstGreatestStep(tags: seq<string>, best: Option<Semver>, tag: string, next: string, d: Option<Semver>)
    requires IsFirstGreatest(tags, best, tag) && d == DevVersion(next)
    ensures if d.Some? && (best.None? || CompareVersions(d.value, best.value) > 0)
            then IsFirstGreatest(tags + [next], d, next)
            else IsFirstGreatest(tags + [next], best, tag)
  {
    if best.Some? {
      var k :| 0 <= k < |tags| && IsFirstAt(tags, best.value, tag, k);
      if d.Some? && CompareVersions(d.value, best.value) > 0 {
        AllBelowNew(tags, best.value, d.value);
        NewBest(tags, next, d.value);
      } else {
        KeepBest(tags, next, best.value, tag, k);
      }
    } else if d.Some? {
      NewBest(tags, next, d.value);
    } else {
      assert forall i :: 0 <= i < |tags| ==> (tags + [next])[i] == tags[i];
    }
  }

  lemma PageFollows(tags: seq<string>, page: nat)
    requires 1 <= page && PER_PAGE * (page - 1) <= |tags|
    ensures tags[..PER_PAGE * (page - 1)] + Page(tags, page) == tags[..Min(PER_PAGE * page, |tags|)]
    ensures |Page(tags, page)| == PER_PAGE <==> PER_PAGE * page <= |tags|
    ensures |Page(tags, page)| <= PER_PAGE
  {}

  /** How many pages are asked for: up to the first that is not full, at most ten. */
  function PagesRead(tags: seq<string>): nat {
    Min(MAX_PAGES, |tags| / PER_PAGE + 1)
  }

  /** With 100 tags a page. */
  lemma PagesOfHundred(tags: seq<string>)
    ensures PagesRead(tags) == Min(10, |tags| / 100 + 1)
  {}

  ghost predicate AllServed(tags: seq<string>, served: nat -> bool) {
    forall page: nat :: 1 <= page <= PagesRead(tags) ==> served(page)
  }

  /**
   `checkDevTags` up to the choice of the tag: the pages of a list are read
   until one is not full or ten are read. `served` says which requests succeed.
   It succeeds exactly if every page it asks for is served and some tag of the
   first 1000 is a development version, and then returns the first greatest.
   */
  method CheckDevTags(tags: seq<string>, served: nat -> bool) returns (ok: bool, best: Option<Semver>, bestTag: string)
    ensures ok ==> AllServed(tags, served) && best.Some?
    ensures ok ==> IsFirstGreatest(tags[..Min(|tags|, 1000)], best, bestTag)
    ensures !ok && AllServed(tags, served) ==> IsFirstGreatest(tags[..Min(|tags|, 1000)], None, bestTag)
  {
    best, bestTag := None, "";
    var page := 1;
    ghost var n: nat := 0;
    while page <= MAX_PAGES
      invariant 1 <= page <= MAX_PAGES + 1 && n == PER_PAGE * (page - 1) <= |tags|
      invariant IsFirstGreatest(tags[..n], best, bestTag)
      invariant forall p: nat :: 1 <= p < page ==> served(p)
    {
      PageIsRead(tags, page);
      if !served(page) {
        return false, None, "";
      }
      var full;
      best, bestTag, full := ReadPage(tags, page, best, bestTag, tags[..n]);
      n := Min(PER_PAGE * page, |tags|);
      if !full {
        break;
      }
      page := page + 1;
    }
    LastPageEnds(tags, page, n);
    ok := best.Some?;
  }

  /** What has been read when the loop ends: all the tags, or ten full pages. */
  lemma LastPageEnds(tags: seq<string>, page: nat, n: nat)
    requires 1 <= page <= MAX_PAGES + 1 && PER_PAGE * (page - 1) <= |tags|
    requires if page <= MAX_PAGES then PER_PAGE * page > |tags| && n == |tags| else n == PER_PAGE * MAX_PAGES
    ensures n == Min(|tags|, 1000)
  {}

  lemma PageIsRead(tags: seq<string>, page: nat)
    requires 1 <= page <= MAX_PAGES && PER_PAGE * (page - 1) <= |tags|
    ensures page <= PagesRead(tags) <= MAX_PAGES
    ensures PER_PAGE * page > |tags| ==> page == PagesRead(tags)
  {}

  /** One page: its tags against the best so far, and whether it was full. */
  method ReadPage(tags: seq<string>, page: nat, best0: Option<Semver>, tag0: string, ghost seen: seq<string>)
    returns (best: Option<Semver>, bestTag: string, full: bool)
    requires 1 <= page && PER_PAGE * (page - 1) <= |tags|
    requires seen == tags[..PER_PAGE * (page - 1)] && IsFirstGreatest(seen, best0, tag0)
    ensures IsFirstGreatest(tags[..Min(PER_PAGE * page, |tags|)], best, bestTag)
    ensures full <==> PER_PAGE * page <= |tags|
  {
    var list := Page(tags, page);
    PageFollows(tags, page);
    best, bestTag := ScanPage(list, best0, tag0, seen);
    full := !(|list| < PER_PAGE);
  }

  /** Parses a tag; anything but a development version is passed over. */
  method DevTag(t: string) returns (v: Option<Semver>)
    ensures v == DevVersion(t)
  {
    v := ParseVersion(TrimV(t));
    if v.None? || !v.value.dev {
      v := None;
    }
  }

  /** The inner loop: the best so far, carried over one page. */
  method ScanPage(list: seq<string>, best0: Option<Semver>, tag0: string, ghost before: seq<string>)
    returns (best: Option<Semver>, bestTag: string)
    requires IsFirstGreatest(before, best0, tag0)
    ensures IsFirstGreatest(before + list, best, bestTag)
  {
    best, bestTag := best0, tag0;
    assert before + list[..0] == before;
    for i := 0 to |list|
      invariant IsFirstGreatest(before + list[..i], best, bestTag)
    {
      var t := list[i];
      var v := DevTag(t);
      FirstGreatestStep(before + list[..i], best, bestTag, t, v);
      assert (before + list[..i]) + [t] == before + list[..i + 1];
      if v.Some? {
        if best.None? || CompareVersions(v.value, best.value) > 0 {
          best, bestTag := v, t;
        }
      }
    }
    assert list[..|list|] == list;
  }
}
