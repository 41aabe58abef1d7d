/** Four scanning loops over strings, and the one notion of occurrence behind them. */
module Strings {
  import opened Basics

  /** sub stands in s at i. */
  predicate OccursAt(s: string, sub: string, i: nat) { i + |sub| <= |s| && s[i..i + |sub|] == sub }

  predicate Contains(s: string, sub: string) { exists i: nat :: i + |sub| <= |s| && OccursAt(s, sub, i) }

  /** std::string::find: the first place at or after from. */
  function Find(s: string, sub: string, from: nat): (r: Option<nat>)
    ensures r.Some? ==> from <= r.value && r.value + |sub| <= |s|
    decreases if from <= |s| then |s| - from + 1 else 0
  {
    if from + |sub| > |s| then None
    else if OccursAt(s, sub, from) then Some(from)
    else Find(s, sub, from + 1)
  }

  lemma {:induction false} FindIsFirst(s: string, sub: string, from: nat)
    ensures match Find(s, sub, from)
      case Some(p) => OccursAt(s, sub, p) && forall i :: from <= i < p ==> !OccursAt(s, sub, i)
      case None => forall i :: from <= i ==> !OccursAt(s, sub, i)
    decreases if from <= |s| then |s| - from + 1 else 0
  {
    if from + |sub| <= |s| && !OccursAt(s, sub, from) {
      FindIsFirst(s, sub, from + 1);
    }
  }

  /** What stands between the leftmost occurrences of sep that do not overlap. */
  function Parts(s: string, sep: string): (r: seq<string>)
    requires sep != ""
    ensures |r| >= 1
    decreases |s|
  {
    match Find(s, sep, 0)
    case None => [s]
    case Some(p) => [s[..p]] + Parts(s[p + |sep|..], sep)
  }

  function Join(parts: seq<string>, glue: string): string
    requires parts != []
  {
    if |parts| == 1 then parts[0] else parts[0] + glue + Join(parts[1..], glue)
  }

  // ---- the parts ---------------------------------------------------------------------------------------

  lemma {:induction false} PartsJoin(s: string, sep: string)
    requires sep != ""
    ensures Join(Parts(s, sep), sep) == s
    decreases |s|
  {
    FindIsFirst(s, sep, 0);
    match Find(s, sep, 0)
    case None =>
    case Some(p) =>
      PartsJoin(s[p + |sep|..], sep);
      assert Parts(s, sep)[1..] == Parts(s[p + |sep|..], sep);
      InThree(s, p, p + |sep|);
  }

  lemma InThree(s: string, i: nat, j: nat)
    requires i <= j <= |s|
    ensures s == s[..i] + s[i..j] + s[j..]
  {
  }

  lemma {:induction false} PartsAreFree(s: string, sep: string)
    requires sep != ""
    ensures forall k :: 0 <= k < |Parts(s, sep)| ==> !Contains(Parts(s, sep)[k], sep)
    decreases |s|
  {
    FindIsFirst(s, sep, 0);
    match Find(s, sep, 0)
    case None =>
    case Some(p) =>
      PartsAreFree(s[p + |sep|..], sep);
      PrefixIsFree(s, sep, p);
  }

  lemma PrefixIsFree(s: string, sep: string, p: nat)
    requires sep != "" && p <= |s| && forall i :: 0 <= i < p ==> !OccursAt(s, sep, i)
    ensures !Contains(s[..p], sep)
  {
    forall i: nat | i + |sep| <= p
      ensures !OccursAt(s[..p], sep, i)
    {
      assert !OccursAt(s, sep, i) && s[..p][i..i + |sep|] == s[i..i + |sep|];
    }
  }

  /** However s is written with separators between parts, the first of the Parts is no longer than the first part. */
  lemma {:induction false} PartsAreLeftmost(s: string, sep: string, other: seq<string>)
    requires sep != "" && other != [] && Join(other, sep) == s
    ensures |Parts(s, sep)[0]| <= |other[0]|
    ensures |other| > 1 ==> |Parts(s, sep)| > 1
  {
    FindIsFirst(s, sep, 0);
    if |other| > 1 {
      var rest := Join(other[1..], sep);
      assert s == other[0] + sep + rest;
      assert s[|other[0]|..|other[0]| + |sep|] == sep;
      assert OccursAt(s, sep, |other[0]|);
    } else {
      assert s == other[0];
    }
  }

  /** Each separator is the first one behind the separator before it, and the last part has none. */
  ghost predicate Leftmost(parts: seq<string>, sep: string)
    requires parts != []
    decreases |parts|
  {
    if |parts| == 1 then !Contains(parts[0], sep)
    else (forall i :: 0 <= i < |parts[0]| ==> !OccursAt(Join(parts, sep), sep, i)) && Leftmost(parts[1..], sep)
  }

  lemma {:induction false} PartsAreTight(s: string, sep: string)
    requires sep != ""
    ensures Leftmost(Parts(s, sep), sep)
    decreases |s|
  {
    hide Find, OccursAt, Join;
    FindIsFirst(s, sep, 0);
    PartsJoin(s, sep);
    match Find(s, sep, 0)
    case None =>
    case Some(p) =>
      PartsAreTight(s[p + |sep|..], sep);
      assert Parts(s, sep)[1..] == Parts(s[p + |sep|..], sep);
  }

  /** There is just one such way to write s with separators between parts. */
  lemma {:induction false} PartsAreUnique(s: string, sep: string, other: seq<string>)
    requires sep != "" && other != []
    ensures other == Parts(s, sep) <==> Join(other, sep) == s && Leftmost(other, sep)
    decreases |s|
  {
    hide Find, OccursAt, Parts, Join, Leftmost;
    if other == Parts(s, sep) {
      PartsJoin(s, sep);
      PartsAreTight(s, sep);
    } else if Join(other, sep) == s && Leftmost(other, sep) {
      TightIsParts(s, sep, other);
    }
  }

  lemma {:induction false} TightIsParts(s: string, sep: string, other: seq<string>)
    requires sep != "" && other != [] && Join(other, sep) == s && Leftmost(other, sep)
    ensures other == Parts(s, sep)
    decreases |s|
  {
    hide Find, Contains, OccursAt;
    if |other| == 1 {
      NoFind(s, sep);
    } else {
      var p, rest := |other[0]|, Join(other[1..], sep);
      assert s == other[0] + sep + rest;
      Cutting(other[0], sep, rest);
      FindFirst(s, sep, p);
      TightIsParts(rest, sep, other[1..]);
      assert other == [other[0]] + other[1..];
    }
  }

  lemma Cutting(a: string, b: string, c: string)
    ensures var s := a + b + c; OccursAt(s, b, |a|) && s[..|a|] == a && s[|a| + |b|..] == c
  {
    assert (a + b + c)[|a|..|a| + |b|] == b;
  }

  lemma NoFind(s: string, sep: string)
    requires !Contains(s, sep)
    ensures Find(s, sep, 0) == None
  {
    FindIsFirst(s, sep, 0);
  }

  lemma FindFirst(s: string, sep: string, p: nat)
    requires OccursAt(s, sep, p) && forall i :: 0 <= i < p ==> !OccursAt(s, sep, i)
    ensures Find(s, sep, 0) == Some(p)
  {
    FindIsFirst(s, sep, 0);
  }

  // ---- shifting what a scan has found --------------------------------------------------------------------

  /** Behind a prefix, the scan finds what it finds in the rest alone. */
  lemma {:induction false} FindBehind(done: string, rest: string, sub: string, from: nat)
    ensures Find(done + rest, sub, |done| + from) ==
      match Find(rest, sub, from) case None => None case Some(p) => Some(|done| + p)
    decreases if from <= |rest| then |rest| - from + 1 else 0
  {
    var s := done + rest;
    if from + |sub| <= |rest| {
      assert s[|done| + from..|done| + from + |sub|] == rest[from..from + |sub|];
      if !OccursAt(rest, sub, from) {
        FindBehind(done, rest, sub, from + 1);
      }
    }
  }

  // ---- ReplaceStr ------------------------------------------------------------------------------------------

  /** One occurrence on: the part before it, and the parts of what is behind it. */
  lemma PartsStep(s: string, sep: string, p: nat)
    requires sep != "" && Find(s, sep, 0) == Some(p)
    ensures p + |sep| <= |s| && Parts(s, sep) == [s[..p]] + Parts(s[p + |sep|..], sep)
  {
  }

  lemma JoinStep(part: string, parts: seq<string>, glue: string)
    requires parts != []
    ensures Join([part] + parts, glue) == part + glue + Join(parts, glue)
  {
    assert ([part] + parts)[1..] == parts;
  }

  lemma ReplaceStep(rest: string, src: string, dst: string, p: nat)
    requires src != "" && Find(rest, src, 0) == Some(p)
    ensures p + |src| <= |rest|
    ensures Join(Parts(rest, src), dst) == rest[..p] + dst + Join(Parts(rest[p + |src|..], src), dst)
  {
    PartsStep(rest, src, p);
    JoinStep(rest[..p], Parts(rest[p + |src|..], src), dst);
  }

  /** Every leftmost occurrence is replaced, and what was put in is not looked at again. */
  method ReplaceStr(str: string, src: string, dst: string) returns (r: string)
    ensures src == "" ==> r == str
    ensures src != "" ==> r == Join(Parts(str, src), dst)
  {
    hide Find, Parts, Join;
    if src == "" {
      return str;
    }
    var pos := 0;
    r := str;
    ghost var done, rest := "", str;
    ghost var target, ahead := Join(Parts(str, src), dst), Join(Parts(str, src), dst);
    while true
      invariant pos == |done| && r == done + rest
      invariant target == done + ahead && ahead == Join(Parts(rest, src), dst)
      decreases |rest|
    {
      FindBehind(done, rest, src, 0);
      match Find(r, src, pos) {
        case None =>
          NothingToReplace(rest, src, dst);
          break;
        case Some(p) =>
          ReplaceStep(rest, src, dst, p - pos);
          ghost var part, left := rest[..p - pos], rest[p - pos + |src|..];
          ReplacedOnce(done, rest, p, |src|);
          r := r[..p] + dst + r[p + |src|..];
          pos := p + |dst|;
          ahead := Join(Parts(left, src), dst);
          Regroup(done, part, dst, ahead);
          done, rest := done + part + dst, left;
      }
    }
  }

  lemma NothingToReplace(rest: string, src: string, dst: string)
    requires src != "" && Find(rest, src, 0) == None
    ensures Join(Parts(rest, src), dst) == rest
  {
  }

  lemma ReplacedOnce(done: string, rest: string, p: nat, n: nat)
    requires |done| <= p && p + n <= |done + rest|
    ensures (done + rest)[..p] == done + rest[..p - |done|] && (done + rest)[p + n..] == rest[p - |done| + n..]
  {
  }

  lemma Regroup(a: string, b: string, c: string, d: string)
    ensures a + (b + c + d) == (a + b + c) + d
  {
  }

  // ---- SplitStr --------------------------------------------------------------------------------------------

  predicate Blank(s: string, c: char) { forall k :: 0 <= k < |s| ==> s[k] == c }

  /** The first position that does not hold c. */
  function FirstNot(s: string, c: char): (k: nat)
    ensures k <= |s| && Blank(s[..k], c) && (k < |s| ==> s[k] != c)
  {
    if s == "" || s[0] != c then 0
    else
      var k := 1 + FirstNot(s[1..], c);
      assert s[..k] == [s[0]] + s[1..][..k - 1];
      k
  }

  /** One more than the last position that does not hold c. */
  function LastNot(s: string, c: char): (k: nat)
    ensures k <= |s| && Blank(s[k..], c) && (k > 0 ==> s[k - 1] != c)
  {
    if s == "" || s[|s| - 1] != c then |s| else LastNot(s[..|s| - 1], c)
  }

  /** TrimStr. */
  function TrimStr(str: string, c: char): string {
    if |str| == 1 && str[0] == c then ""
    else
      var first := FirstNot(str, c);
      var s := if first < |str| then str[first..] else str;
      var last := LastNot(s, c);
      if last > 0 && last != |s| then s[..last] else s
  }

  predicate Trimmed(s: string, c: char) { s != "" ==> s[0] != c && s[|s| - 1] != c }

  /** TrimStr trims, except for a string of two or more blanks and nothing else, which it returns whole. */
  lemma TrimStrTrims(str: string, c: char)
    ensures Trimmed(TrimStr(str, c), c) <==> !(|str| >= 2 && Blank(str, c))
    ensures |str| >= 2 && Blank(str, c) ==> TrimStr(str, c) == str
    ensures Trimming(str, c, TrimStr(str, c))
  {
    var first := FirstNot(str, c);
    var s := if first < |str| then str[first..] else str;
    var last := LastNot(s, c);
    LastNotOf(s, c);
    if |str| == 1 && str[0] == c {
      assert str[1..1] == "";
    } else if first == |str| {
      assert str[..first] == str && str[0..|str|] == str;
    } else {
      assert s[0] == str[first] != c;
      var j := first + last;
      assert str[j..] == s[last..] && str[first..j] == s[..last];
    }
  }

  lemma LastNotOf(s: string, c: char)
    ensures LastNot(s, c) == 0 <==> Blank(s, c)
  {
    assert s[0..] == s;
  }

  /** r is str without some blanks at either end; of a blank string, any part. */
  ghost predicate Trimming(str: string, c: char, r: string) {
    exists i: nat, j: nat ::
      i <= j <= |str| && r == str[i..j] && (Blank(str, c) || (Blank(str[..i], c) && Blank(str[j..], c)))
  }

  function Trim(s: string, needTrim: bool): string { if needTrim then TrimStr(s, ' ') else s }

  /** What SplitStr keeps of the parts. */
  function Kept(parts: seq<string>, canEmpty: bool, needTrim: bool): seq<string> {
    if parts == [] then []
    else
      var p := Trim(parts[0], needTrim);
      (if p != "" || canEmpty then [p] else []) + Kept(parts[1..], canEmpty, needTrim)
  }

  /** r is what is made of a part: the part itself, or, to be trimmed, without the blanks at its ends. Two or more
      blanks and nothing else stay. */
  ghost predicate Cleaned(part: string, needTrim: bool, r: string) {
    if needTrim && !(|part| >= 2 && Blank(part, ' ')) then Trimming(part, ' ', r) && Trimmed(r, ' ') else r == part
  }

  ghost function NonEmpty(strs: seq<string>): seq<string> {
    if strs == [] then [] else (if strs[0] == "" then [] else [strs[0]]) + NonEmpty(strs[1..])
  }

  /** One string for each part, in order, and then, unless they are wanted, without the empty ones. */
  ghost predicate CleanedAll(parts: seq<string>, canEmpty: bool, needTrim: bool, strs: seq<string>) {
    exists all: seq<string> ::
      && |all| == |parts| && (forall k :: 0 <= k < |parts| ==> Cleaned(parts[k], needTrim, all[k]))
      && strs == if canEmpty then all else NonEmpty(all)
  }

  lemma TrimCleans(s: string, needTrim: bool)
    ensures Cleaned(s, needTrim, Trim(s, needTrim))
  {
    TrimStrTrims(s, ' ');
  }

  /** There is one way only to take the blanks off. */
  lemma CleanedIsTrim(s: string, needTrim: bool, r: string)
    requires Cleaned(s, needTrim, r)
    ensures r == Trim(s, needTrim)
  {
    TrimCleans(s, needTrim);
    if needTrim && !(|s| >= 2 && Blank(s, ' ')) {
      OneTrimming(s, ' ', r, TrimStr(s, ' '));
    }
  }

  lemma OneTrimming(s: string, c: char, x: string, y: string)
    requires Trimming(s, c, x) && Trimming(s, c, y) && Trimmed(x, c) && Trimmed(y, c)
    ensures x == y
  {
    if Blank(s, c) {
      assert x == "" && y == "";
    } else {
      OneInside(s, c, x, y);
    }
  }

  lemma OneInside(s: string, c: char, x: string, y: string)
    requires Trimming(s, c, x) && Trimming(s, c, y) && Trimmed(x, c) && Trimmed(y, c) && !Blank(s, c)
    ensures x == y
  {
    var n :| 0 <= n < |s| && s[n] != c;
    hide Blank, Trimmed;
    var i: nat, j: nat :| i <= j <= |s| && x == s[i..j] && Blank(s[..i], c) && Blank(s[j..], c);
    var k: nat, l: nat :| k <= l <= |s| && y == s[k..l] && Blank(s[..k], c) && Blank(s[l..], c);
    SameEnds(s, c, i, j, k, l, n);
  }

  lemma SameEnds(s: string, c: char, i: nat, j: nat, k: nat, l: nat, n: nat)
    requires i <= j <= |s| && Blank(s[..i], c) && Blank(s[j..], c) && Trimmed(s[i..j], c)
    requires k <= l <= |s| && Blank(s[..k], c) && Blank(s[l..], c) && Trimmed(s[k..l], c)
    requires n < |s| && s[n] != c
    ensures i == k && j == l
  {
    hide Blank, Trimmed;
    Inside(s, c, i, j, n);
    Inside(s, c, k, l, n);
    Ends(s, c, i, j, k, l);
    Ends(s, c, k, l, i, j);
  }

  lemma Inside(s: string, c: char, i: nat, j: nat, n: nat)
    requires i <= j <= |s| && Blank(s[..i], c) && Blank(s[j..], c) && n < |s| && s[n] != c
    ensures i <= n < j
  {
    assert forall k :: 0 <= k < i ==> s[k] == s[..i][k];
    assert forall k :: j <= k < |s| ==> s[k] == s[j..][k - j];
  }

  lemma Ends(s: string, c: char, i: nat, j: nat, k: nat, l: nat)
    requires i < j <= |s| && k < l <= |s| && Blank(s[..i], c) && Blank(s[j..], c) && Trimmed(s[k..l], c)
    ensures i <= k && l <= j
  {
    Inside(s, c, i, j, k);
    Inside(s, c, i, j, l - 1);
  }

  /** What SplitStr keeps is this, and nothing else is. */
  lemma {:induction false} KeptExactly(parts: seq<string>, canEmpty: bool, needTrim: bool, strs: seq<string>)
    ensures CleanedAll(parts, canEmpty, needTrim, strs) <==> strs == Kept(parts, canEmpty, needTrim)
  {
    var all := Kept(parts, true, needTrim);
    KeptAll(parts, needTrim);
    KeptNonEmpty(parts, needTrim);
    if CleanedAll(parts, canEmpty, needTrim, strs) {
      var other: seq<string> :|
        && |other| == |parts| && (forall k :: 0 <= k < |parts| ==> Cleaned(parts[k], needTrim, other[k]))
        && strs == if canEmpty then other else NonEmpty(other);
      forall k | 0 <= k < |parts| ensures other[k] == all[k] {
        CleanedIsTrim(parts[k], needTrim, other[k]);
        CleanedIsTrim(parts[k], needTrim, all[k]);
      }
      assert other == all;
    }
  }

  lemma {:induction false} KeptAll(parts: seq<string>, needTrim: bool)
    ensures var all := Kept(parts, true, needTrim);
      |all| == |parts| && forall k :: 0 <= k < |parts| ==> Cleaned(parts[k], needTrim, all[k])
  {
    hide Cleaned, Trim;
    if parts != [] {
      TrimCleans(parts[0], needTrim);
      KeptAll(parts[1..], needTrim);
      assert forall k :: 1 <= k < |parts| ==> parts[k] == parts[1..][k - 1];
    }
  }

  lemma {:induction false} KeptNonEmpty(parts: seq<string>, needTrim: bool)
    ensures Kept(parts, false, needTrim) == NonEmpty(Kept(parts, true, needTrim))
  {
    hide Trim;
    if parts != [] {
      KeptNonEmpty(parts[1..], needTrim);
      var all := Kept(parts, true, needTrim);
      assert all[1..] == Kept(parts[1..], true, needTrim);
    }
  }

  lemma {:induction false} AllKept(parts: seq<string>)
    ensures Kept(parts, true, false) == parts
  {
    if parts != [] {
      AllKept(parts[1..]);
    }
  }

  /** The strings that SplitStr has found, with one more if it is to be kept. */
  function Keep(strs: seq<string>, part: string, canEmpty: bool): seq<string> {
    if part != "" || canEmpty then strs + [part] else strs
  }

  lemma KeptStep(strs: seq<string>, part: string, parts: seq<string>, canEmpty: bool, needTrim: bool)
    ensures strs + Kept([part] + parts, canEmpty, needTrim)
         == Keep(strs, Trim(part, needTrim), canEmpty) + Kept(parts, canEmpty, needTrim)
  {
    hide Trim;
    assert ([part] + parts)[0] == part && ([part] + parts)[1..] == parts;
  }

  method SplitStr(str: string, sep: string, canEmpty: bool, needTrim: bool) returns (strs: seq<string>)
    ensures var whole := Trim(str, needTrim);
      strs == Kept(if sep == "" then [whole] else Parts(whole, sep), canEmpty, needTrim)
    ensures exists whole: string ::
      && Cleaned(str, needTrim, whole)
      && CleanedAll(if sep == "" then [whole] else Parts(whole, sep), canEmpty, needTrim, strs)
  {
    hide Trim, Find, Parts, Kept, Keep, Cleaned, CleanedAll;
    strs := [];
    var tmp := Trim(str, needTrim);
    ghost var all := Kept(if sep == "" then [tmp] else Parts(tmp, sep), canEmpty, needTrim);
    TrimCleans(str, needTrim);
    KeptExactly(if sep == "" then [tmp] else Parts(tmp, sep), canEmpty, needTrim, all);
    ghost var ahead := all;
    while true
      invariant ahead == Kept(if sep == "" then [tmp] else Parts(tmp, sep), canEmpty, needTrim)
      invariant all == strs + ahead
      decreases |tmp|
    {
      var pos := Find(tmp, sep, 0);
      if pos == None || sep == "" {
        var part := Trim(tmp, needTrim);
        LastPart(strs, tmp, sep, canEmpty, needTrim);
        strs := Keep(strs, part, canEmpty);
        break;
      } else {
        var part := Trim(tmp[..pos.value], needTrim);
        ghost var rest := Parts(tmp[|sep| + pos.value..], sep);
        PartsStep(tmp, sep, pos.value);
        KeptStep(strs, tmp[..pos.value], rest, canEmpty, needTrim);
        strs := Keep(strs, part, canEmpty);
        tmp := tmp[|sep| + pos.value..];
        ahead := Kept(rest, canEmpty, needTrim);
      }
    }
  }

  lemma LastPart(strs: seq<string>, tmp: string, sep: string, canEmpty: bool, needTrim: bool)
    requires sep == "" || Find(tmp, sep, 0) == None
    ensures strs + Kept(if sep == "" then [tmp] else Parts(tmp, sep), canEmpty, needTrim)
         == Keep(strs, Trim(tmp, needTrim), canEmpty)
  {
    KeptStep(strs, tmp, [], canEmpty, needTrim);
    hide Trim;
    assert Keep(strs, Trim(tmp, needTrim), canEmpty) + [] == Keep(strs, Trim(tmp, needTrim), canEmpty);
  }

  // ---- CountStrInStr -----------------------------------------------------------------------------------------

  method CountStrInStr(str: string, sub: string) returns (count: nat)
    ensures sub == "" ==> count == 0
    ensures sub != "" ==> count == |Parts(str, sub)| - 1
  {
    if sub == "" {
      return 0;
    }
    hide Find, Parts;
    var position := 0;
    count := 0;
    assert str[0..] == str;
    while true
      invariant 0 <= position <= |str| && count + |Parts(str[position..], sub)| == |Parts(str, sub)|
      decreases |str| - position
    {
      CountStep(str, sub, position);
      match Find(str, sub, position) {
        case None =>
          break;
        case Some(p) =>
          position := p + |sub|;
          count := count + 1;
      }
    }
  }

  /** Each occurrence ends one part. */
  lemma CountStep(str: string, sub: string, position: nat)
    requires sub != "" && position <= |str|
    ensures match Find(str, sub, position)
      case None => |Parts(str[position..], sub)| == 1
      case Some(p) => |Parts(str[position..], sub)| == 1 + |Parts(str[p + |sub|..], sub)|
  {
    hide Find, Parts;
    var rest := str[position..];
    assert str == str[..position] + rest;
    FindBehind(str[..position], rest, sub, 0);
    match Find(rest, sub, 0)
    case None => OnlyPart(rest, sub);
    case Some(q) =>
      PartsStep(rest, sub, q);
      assert rest[q + |sub|..] == str[position + q + |sub|..];
  }

  lemma OnlyPart(rest: string, sub: string)
    requires sub != "" && Find(rest, sub, 0) == None
    ensures |Parts(rest, sub)| == 1
  {
  }

  // ---- GetSubStrBetween ----------------------------------------------------------------------------------------

  /** An occurrence of the left delimiter and one of the right delimiter behind it. */
  datatype Span = Span(left: nat, right: nat)

  /** GetFirstSubStrBetween: what it finds, and where the right delimiter stands. */
  function FirstBetween(s: string, left: string, right: string): (r: Option<(string, nat)>)
    ensures r.Some? ==> left != "" && |left| <= r.value.1 <= |s|
  {
    if left == "" || right == "" then None
    else
      match Find(s, left, 0)
      case None => None
      case Some(l) =>
        match Find(s, right, l + |left|)
        case None => None
        case Some(r) => Some((s[l + |left|..r], r))
  }

  /** The pairs of delimiters in s from there on; a right delimiter may be part of the next left one. */
  function Spans(s: string, left: string, right: string, from: nat): (r: seq<Span>)
    requires left != ""
    ensures forall k :: 0 <= k < |r| ==> r[k].left + |left| <= r[k].right <= |s|
    decreases if from <= |s| then |s| - from else 0
  {
    match Find(s, left, from)
    case None => []
    case Some(l) =>
      match Find(s, right, l + |left|)
      case None => []
      case Some(r) => [Span(l, r)] + Spans(s, left, right, r)
  }

  function TextOf(s: string, n: nat, span: Span): string
    requires span.left + n <= span.right <= |s|
  {
    s[span.left + n..span.right]
  }

  function Texts(s: string, n: nat, spans: seq<Span>): (r: seq<string>)
    requires forall k :: 0 <= k < |spans| ==> spans[k].left + n <= spans[k].right <= |s|
    ensures |r| == |spans|
  {
    if spans == [] then [] else [TextOf(s, n, spans[0])] + Texts(s, n, spans[1..])
  }

  lemma TextsStep(s: string, n: nat, x: Span, spans: seq<Span>)
    requires forall k :: 0 <= k < |spans| ==> spans[k].left + n <= spans[k].right <= |s|
    requires x.left + n <= x.right <= |s|
    ensures Texts(s, n, [x] + spans) == [TextOf(s, n, x)] + Texts(s, n, spans)
  {
    hide TextOf;
    var all := [x] + spans;
    assert all[0] == x && all[1..] == spans;
  }

  lemma {:induction false} TextsAt(s: string, n: nat, spans: seq<Span>)
    requires forall k :: 0 <= k < |spans| ==> spans[k].left + n <= spans[k].right <= |s|
    ensures forall k :: 0 <= k < |spans| ==> Texts(s, n, spans)[k] == s[spans[k].left + n..spans[k].right]
  {
    if spans != [] {
      TextsAt(s, n, spans[1..]);
      assert forall k :: 1 <= k < |spans| ==> spans[k] == spans[1..][k - 1];
    }
  }

  /** The loop drops what it has passed; it finds what a scan of the whole string finds. */
  method GetSubStrBetween(str: string, left: string, right: string) returns (sub: seq<string>)
    ensures left == "" || right == "" ==> sub == []
    ensures left != "" && right != "" ==> sub == Texts(str, |left|, Spans(str, left, right, 0))
    ensures left != "" && right != "" ==> var spans := Spans(str, left, right, 0);
      |sub| == |spans| && forall k :: 0 <= k < |spans| ==> sub[k] == str[spans[k].left + |left|..spans[k].right]
  {
    hide Find, Spans, Texts;
    sub := [];
    var tmp := str;
    if left == "" || right == "" {
      assert FirstBetween(tmp, left, right) == None;
      return;
    }
    TextsAt(str, |left|, Spans(str, left, right, 0));
    ghost var done, ahead := "", Texts(str, |left|, Spans(str, left, right, 0));
    ghost var all := ahead;
    while true
      invariant str == done + tmp && all == sub + ahead
      invariant ahead == Texts(str, |left|, Spans(str, left, right, |done|))
      decreases |tmp|
    {
      BetweenStep(done, tmp, left, right);
      match FirstBetween(tmp, left, right) {
        case None =>
          break;
        case Some(found) =>
          sub := sub + [found.0];
          done := done + tmp[..found.1];
          tmp := tmp[found.1..];
          ahead := Texts(str, |left|, Spans(str, left, right, |done|));
      }
    }
  }

  /** The first pair behind what has been passed is the first pair of what is left. */
  lemma BetweenStep(done: string, tmp: string, left: string, right: string)
    requires left != "" && right != ""
    ensures var s := done + tmp; var all := Texts(s, |left|, Spans(s, left, right, |done|));
      match FirstBetween(tmp, left, right)
      case None => all == []
      case Some(found) =>
        && s == (done + tmp[..found.1]) + tmp[found.1..]
        && all == [found.0] + Texts(s, |left|, Spans(s, left, right, |done + tmp[..found.1]|))
  {
    hide Find, Texts;
    FindBehind(done, tmp, left, 0);
    match Find(tmp, left, 0)
    case None =>
    case Some(l) =>
      FindBehind(done, tmp, right, l + |left|);
      match Find(tmp, right, l + |left|)
      case None =>
      case Some(r) =>
        var s, d := done + tmp, |done|;
        TextsStep(s, |left|, Span(d + l, d + r), Spans(s, left, right, d + r));
        SliceBehind(done, tmp, l + |left|, r);
        PassOver(done, tmp, r);
  }

  lemma SliceBehind(done: string, tmp: string, i: nat, j: nat)
    requires i <= j <= |tmp|
    ensures (done + tmp)[|done| + i..|done| + j] == tmp[i..j]
  {
  }

  lemma PassOver(done: string, tmp: string, r: nat)
    requires r <= |tmp|
    ensures done + tmp == (done + tmp[..r]) + tmp[r..] && |done + tmp[..r]| == |done| + r
  {
  }

  /** A left delimiter is the first behind the pair before it, its right delimiter the first behind it. */
  ghost predicate Tight(s: string, left: string, right: string, from: nat, span: Span) {
    && OccursAt(s, left, span.left) && OccursAt(s, right, span.right)
    && from <= span.left && (forall i :: from <= i < span.left ==> !OccursAt(s, left, i))
    && span.left + |left| <= span.right && (forall i :: span.left + |left| <= i < span.right ==> !OccursAt(s, right, i))
  }

  /** No left delimiter from there on has a right delimiter behind it. */
  ghost predicate NoPair(s: string, left: string, right: string, from: nat) {
    forall i: nat, j: nat :: from <= i && i + |left| <= j ==> !(OccursAt(s, left, i) && OccursAt(s, right, j))
  }

  /** Every pair is tight against the one before it, and none is missed at the end. */
  ghost predicate AllTight(s: string, left: string, right: string, from: nat, spans: seq<Span>)
    decreases |spans|
  {
    if spans == [] then NoPair(s, left, right, from)
    else Tight(s, left, right, from, spans[0]) && AllTight(s, left, right, spans[0].right, spans[1..])
  }

  lemma {:induction false} SpansAreTight(s: string, left: string, right: string, from: nat)
    requires left != "" && right != ""
    ensures AllTight(s, left, right, from, Spans(s, left, right, from))
    decreases if from <= |s| then |s| - from else 0
  {
    hide OccursAt, Find, AllTight;
    FindIsFirst(s, left, from);
    match Find(s, left, from)
    case None => NoneTight(s, left, right, from);
    case Some(l) =>
      FindIsFirst(s, right, l + |left|);
      match Find(s, right, l + |left|)
      case None => NoneTight(s, left, right, from);
      case Some(r) =>
        SpansAreTight(s, left, right, r);
        OneTighter(s, left, right, from, Span(l, r), Spans(s, left, right, r));
  }

  lemma NoneTight(s: string, left: string, right: string, from: nat)
    requires NoPair(s, left, right, from)
    ensures AllTight(s, left, right, from, [])
  {
  }

  lemma OneTighter(s: string, left: string, right: string, from: nat, x: Span, rest: seq<Span>)
    requires Tight(s, left, right, from, x) && AllTight(s, left, right, x.right, rest)
    ensures AllTight(s, left, right, from, [x] + rest)
  {
    hide Tight;
    assert ([x] + rest)[1..] == rest;
  }

  /** There is only one such list of pairs. */
  lemma {:induction false} TightSpansAreUnique(s: string, left: string, right: string, from: nat,
                                               x: seq<Span>, y: seq<Span>)
    requires AllTight(s, left, right, from, x) && AllTight(s, left, right, from, y)
    ensures x == y
    decreases |x|
  {
    hide OccursAt;
    if x != [] && y != [] {
      assert x[0].left == y[0].left && x[0].right == y[0].right;
      TightSpansAreUnique(s, left, right, x[0].right, x[1..], y[1..]);
      assert x == [x[0]] + x[1..] && y == [y[0]] + y[1..];
    }
  }

  function Front(parts: seq<string>): seq<string> { if parts == [] then [] else parts[..|parts| - 1] }

  lemma FrontStep(part: string, parts: seq<string>)
    requires parts != []
    ensures Front([part] + parts) == [part] + Front(parts) && ([part] + parts)[1..] == parts
  {
  }

  /** With one separator on both sides, what stands between is what SplitStr finds, without its two ends. */
  lemma BetweenIsSplit(s: string, sep: string)
    requires sep != ""
    ensures Texts(s, |sep|, Spans(s, sep, sep, 0)) == Front(Parts(s, sep)[1..])
  {
    hide OccursAt, Find, Texts;
    FindIsFirst(s, sep, 0);
    match Find(s, sep, 0)
    case None => NoTexts(s, |sep|);
    case Some(p) =>
      FindAgain(s, sep, p);
      BetweenFrom(s, sep, p);
      PartsStep(s, sep, p);
      FrontStep(s[..p], Parts(s[p + |sep|..], sep));
  }

  lemma NoTexts(s: string, n: nat)
    ensures Texts(s, n, []) == []
  {
  }

  lemma FindAgain(s: string, sub: string, p: nat)
    requires OccursAt(s, sub, p)
    ensures Find(s, sub, p) == Some(p)
  {
  }

  lemma {:induction false} BetweenFrom(s: string, sep: string, p: nat)
    requires sep != "" && OccursAt(s, sep, p)
    ensures Texts(s, |sep|, Spans(s, sep, sep, p)) == Front(Parts(s[p + |sep|..], sep))
    decreases |s| - p
  {
    hide Find, Texts, Front;
    var at := p + |sep|;
    var rest := s[at..];
    FindAgain(s, sep, p);
    FindInRest(s, sep, at);
    match Find(s, sep, at)
    case None => OneFront(rest, sep); NoTexts(s, |sep|);
    case Some(r) =>
      BetweenFrom(s, sep, r);
      PartsStep(rest, sep, r - at);
      TextsStep(s, |sep|, Span(p, r), Spans(s, sep, sep, r));
      FrontStep(s[at..r], Parts(s[r + |sep|..], sep));
  }

  lemma OneFront(rest: string, sep: string)
    requires sep != "" && Find(rest, sep, 0) == None
    ensures Front(Parts(rest, sep)) == []
  {
  }

  lemma FindInRest(s: string, sub: string, at: nat)
    requires at <= |s|
    ensures match Find(s, sub, at)
      case None => Find(s[at..], sub, 0) == None
      case Some(r) =>
        && Find(s[at..], sub, 0) == Some(r - at) && OccursAt(s, sub, r)
        && s[at..][..r - at] == s[at..r] && s[at..][r - at + |sub|..] == s[r + |sub|..]
  {
    hide Find;
    assert s == s[..at] + s[at..];
    FindBehind(s[..at], s[at..], sub, 0);
    FindIsFirst(s, sub, at);
  }

  // ---- what they have in common ------------------------------------------------------------------------------

  /** Splitting and joining again, replacing by itself, and counting all see the same occurrences. */
  lemma OneNotion(s: string, sep: string)
    requires sep != ""
    ensures Kept(Parts(s, sep), true, false) == Parts(s, sep) && Join(Parts(s, sep), sep) == s
    ensures forall part :: part in Parts(s, sep) ==> !Contains(part, sep)
    ensures !Contains(s, sep) <==> |Parts(s, sep)| == 1
  {
    AllKept(Parts(s, sep));
    PartsJoin(s, sep);
    PartsAreFree(s, sep);
    FindIsFirst(s, sep, 0);
  }
}
