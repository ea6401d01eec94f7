/** ParseTTL: how long a response may be kept. */
module Ttl {
  import opened Objects

  const SECOND: int := 1_000_000_000
  const TWO_63: int := 0x8000_0000_0000_0000
  const TWO_64: int := 0x1_0000_0000_0000_0000

  /** int64 multiplication wraps around. */
  function Wrap(x: int): int {
    (x + TWO_63) % TWO_64 - TWO_63
  }

  // ---- the string functions it uses ----

  /** Lower case, character by character. Outside ASCII it may be anything: Unicode even maps some other
      characters to ASCII letters. */
  type Lower = char -> char

  ghost predicate LowersAscii(lower: Lower) {
    forall c: char :: c < 128 as char ==> lower(c) == if 'A' <= c <= 'Z' then c - 'A' + 'a' else c
  }

  function ToLower(lower: Lower, s: string): string {
    seq(|s|, i requires 0 <= i < |s| => lower(s[i]))
  }

  predicate Contains(s: string, part: string) {
    part <= s || (s != [] && Contains(s[1..], part))
  }

  /** unicode.IsSpace. */
  predicate Blank(c: char) {
    var x := c as int;
    9 <= x <= 13 || x in {0x20, 0x85, 0xA0, 0x1680, 0x2028, 0x2029, 0x202F, 0x205F, 0x3000} || 0x2000 <= x <= 0x200A
  }

  function TrimLeft(s: string): string {
    if s != [] && Blank(s[0]) then TrimLeft(s[1..]) else s
  }

  function TrimRight(s: string): string {
    if s != [] && Blank(s[|s| - 1]) then TrimRight(s[..|s| - 1]) else s
  }

  function TrimSpace(s: string): string {
    TrimRight(TrimLeft(s))
  }

  function Split(s: string, sep: char): (r: seq<string>)
    ensures r != []
  {
    if s == [] then [""]
    else
      var rest := Split(s[1..], sep);
      if s[0] == sep then [""] + rest else [[s[0]] + rest[0]] + rest[1..]
  }

  function Digits(s: string): Option<nat> {
    if s == [] then None
    else if !('0' <= s[|s| - 1] <= '9') then None
    else
      var d := (s[|s| - 1] - '0') as int;
      if |s| == 1 then Some(d)
      else
        match Digits(s[..|s| - 1])
        case None => None
        case Some(n) => Some(10 * n + d)
  }

  /** strconv.Atoi on a 64-bit platform. */
  function Atoi(s: string): Option<int> {
    var signed := s != [] && s[0] in {'+', '-'};
    match Digits(if signed then s[1..] else s)
    case None => None
    case Some(n) =>
      var v: int := if signed && s[0] == '-' then -(n as int) else n;
      if -TWO_63 <= v < TWO_63 then Some(v) else None
  }

  // ---- the decision ----

  const MAX_AGE := "max-age="

  /** The number of seconds of a max-age directive that is used: positive, and readable. */
  function MaxAge(part: string): Option<int> {
    var p := TrimSpace(part);
    if MAX_AGE <= p then
      match Atoi(p[|MAX_AGE|..])
      case Some(n) => if n > 0 then Some(n) else None
      case None => None
    else None
  }

  function FirstMaxAge(parts: seq<string>): Option<int> {
    if parts == [] then None
    else if MaxAge(parts[0]).Some? then MaxAge(parts[0])
    else FirstMaxAge(parts[1..])
  }

  predicate Forbidden(lower: Lower, cacheControl: string) {
    Contains(ToLower(lower, cacheControl), "no-store") || Contains(ToLower(lower, cacheControl), "no-cache")
  }

  function Directives(lower: Lower, cacheControl: string): seq<string> {
    Split(ToLower(lower, cacheControl), ',')
  }

  /** What decides when no max-age is used. */
  function Fallback(expiresIn: Option<int>, defaultTtl: int): int {
    if expiresIn.Some? && expiresIn.value > 0 then expiresIn.value else defaultTtl
  }

  /** `expiresIn` is the time left until a readable Expires header. */
  function TtlOf(lower: Lower, cacheControl: string, expiresIn: Option<int>, defaultTtl: int): int {
    if Forbidden(lower, cacheControl) then 0
    else
      match FirstMaxAge(Directives(lower, cacheControl))
      case Some(secs) => Wrap(secs * SECOND)
      case None => Fallback(expiresIn, defaultTtl)
  }

  method ParseTTL(lower: Lower, cacheControl: string, expiresIn: Option<int>, defaultTtl: int) returns (ttl: int)
    ensures ttl == TtlOf(lower, cacheControl, expiresIn, defaultTtl)
    ensures SaysNoStore(lower, cacheControl) ==> ttl == 0
    ensures !SaysNoStore(lower, cacheControl) && (forall i: nat, n :: !UsedAt(Directives(lower, cacheControl), i, n)) ==>
      ttl == match expiresIn
        case None => defaultTtl
        case Some(left) => if left > 0 then left else defaultTtl
  {
    HeaderDecides(lower, cacheControl, expiresIn, defaultTtl);
    if cacheControl != "" {
      var cc := ToLower(lower, cacheControl);
      if Contains(cc, "no-store") || Contains(cc, "no-cache") {
        return 0;
      }
      var secs := FindMaxAge(Split(cc, ','));
      if secs.Some? {
        return Wrap(secs.value * SECOND);
      }
    } else {
      EmptyHeader(lower);
    }
    if expiresIn.Some? {
      if expiresIn.value > 0 {
        return expiresIn.value;
      }
    }
    ttl := defaultTtl;
  }

  lemma EmptyHeader(lower: Lower)
    ensures !Forbidden(lower, "") && FirstMaxAge(Directives(lower, "")) == None
  {
    assert ToLower(lower, "") == "";
    assert MaxAge("") == None;
  }

  /** The loop over the directives. */
  method FindMaxAge(parts: seq<string>) returns (r: Option<int>)
    ensures r == FirstMaxAge(parts)
  {
    for i := 0 to |parts|
      invariant FirstMaxAge(parts) == FirstMaxAge(parts[i..])
    {
      assert parts[i..][1..] == parts[i + 1..];
      var part := TrimSpace(parts[i]);
      if MAX_AGE <= part {
        var secs := Atoi(part[|MAX_AGE|..]);
        if secs.Some? && secs.value > 0 {
          return secs;
        }
      }
    }
    r := None;
  }

  lemma {:induction false} FirstMaxAgeFacts(parts: seq<string>)
    ensures FirstMaxAge(parts).Some? ==> 0 < FirstMaxAge(parts).value < TWO_63
    ensures FirstMaxAge(parts).None? <==> forall p :: p in parts ==> MaxAge(p).None?
  {
    if parts != [] {
      FirstMaxAgeFacts(parts[1..]);
      assert parts == [parts[0]] + parts[1..];
    }
  }

  /** The directive at i is the first with a usable max-age, of n seconds. */
  ghost predicate UsedAt(parts: seq<string>, i: nat, n: int) {
    i < |parts| && MaxAge(parts[i]) == Some(n) && forall j :: 0 <= j < i ==> MaxAge(parts[j]).None?
  }

  lemma {:induction false} FirstUsed(parts: seq<string>) returns (i: nat)
    ensures match FirstMaxAge(parts)
      case Some(n) => UsedAt(parts, i, n) && forall k: nat, m :: UsedAt(parts, k, m) ==> k == i
      case None => forall k: nat, m :: !UsedAt(parts, k, m)
  {
    i := 0;
    if parts != [] && MaxAge(parts[0]).None? {
      var k := FirstUsed(parts[1..]);
      i := k + 1;
      assert forall k: nat, m :: k > 0 && UsedAt(parts, k, m) ==> UsedAt(parts[1..], k - 1, m);
    }
  }

  /** The lower-cased header goes on with the word at i. */
  predicate GoesOn(lower: Lower, header: string, i: nat, word: string) {
    i + |word| <= |header| && forall k :: 0 <= k < |word| ==> lower(header[i + k]) == word[k]
  }

  ghost predicate Says(lower: Lower, header: string, word: string) {
    exists i: nat :: GoesOn(lower, header, i, word)
  }

  ghost predicate SaysNoStore(lower: Lower, header: string) {
    Says(lower, header, "no-store") || Says(lower, header, "no-cache")
  }

  predicate OccursAt(s: string, i: nat, part: string) {
    i + |part| <= |s| && s[i..i + |part|] == part
  }

  lemma OccursLater(s: string, i: nat, part: string)
    requires s != []
    ensures OccursAt(s, i + 1, part) <==> OccursAt(s[1..], i, part)
  {
    if i + |part| <= |s| - 1 {
      assert s[1..][i..i + |part|] == s[i + 1..i + 1 + |part|];
    }
  }

  lemma {:induction false} ContainsAt(s: string, part: string)
    ensures Contains(s, part) <==> exists i: nat :: OccursAt(s, i, part)
  {
    assert OccursAt(s, 0, part) <==> part <= s;
    if s != [] {
      ContainsAt(s[1..], part);
      forall i: nat ensures OccursAt(s, i + 1, part) <==> OccursAt(s[1..], i, part) {
        OccursLater(s, i, part);
      }
      if k: nat :| OccursAt(s[1..], k, part) {
        assert OccursAt(s, k + 1, part);
      }
      if k: nat :| OccursAt(s, k, part) && k > 0 {
        OccursLater(s, k - 1, part);
      }
    }
  }

  lemma GoesOnOccurs(lower: Lower, header: string, i: nat, word: string)
    ensures GoesOn(lower, header, i, word) <==> OccursAt(ToLower(lower, header), i, word)
  {
    var s := ToLower(lower, header);
    if i + |word| <= |s| {
      var t := s[i..i + |word|];
      assert forall k :: 0 <= k < |word| ==> t[k] == lower(header[i + k]);
    }
  }

  lemma SaysContains(lower: Lower, header: string, word: string)
    ensures Contains(ToLower(lower, header), word) <==> Says(lower, header, word)
  {
    ContainsAt(ToLower(lower, header), word);
    forall i: nat ensures GoesOn(lower, header, i, word) <==> OccursAt(ToLower(lower, header), i, word) {
      GoesOnOccurs(lower, header, i, word);
    }
  }

  /** A header that says no-store or no-cache gives no lifetime; one that does not, and has no usable max-age, gives
      the time left until Expires, if any is left, and otherwise the default. */
  lemma HeaderDecides(lower: Lower, cacheControl: string, expiresIn: Option<int>, defaultTtl: int)
    ensures SaysNoStore(lower, cacheControl) ==> TtlOf(lower, cacheControl, expiresIn, defaultTtl) == 0
    ensures !SaysNoStore(lower, cacheControl) && (forall i: nat, n :: !UsedAt(Directives(lower, cacheControl), i, n)) ==>
      TtlOf(lower, cacheControl, expiresIn, defaultTtl) ==
      match expiresIn
      case None => defaultTtl
      case Some(left) => if left > 0 then left else defaultTtl
  {
    SaysContains(lower, cacheControl, "no-store");
    SaysContains(lower, cacheControl, "no-cache");
    var i := FirstUsed(Directives(lower, cacheControl));
  }

  const TWO_55: int := 0x80_0000_0000_0000

  /** As int64 nanoseconds the seconds come out positive: they are no multiple of 2^55, at which the product is a
      multiple of 2^64, and 2^63 goes into the product an even number of times. */
  predicate ComesOutPositive(secs: int) {
    secs % TWO_55 != 0 && (secs * SECOND / TWO_63) % 2 == 0
  }

  /** A response gets a positive lifetime exactly when it may be stored and the max-age in use, if there is one,
      comes out positive. */
  lemma PositiveExactly(lower: Lower, cacheControl: string, expiresIn: Option<int>, defaultTtl: int)
    requires defaultTtl > 0
    ensures TtlOf(lower, cacheControl, expiresIn, defaultTtl) > 0 <==>
      && !Forbidden(lower, cacheControl)
      && forall i: nat, secs :: UsedAt(Directives(lower, cacheControl), i, secs) ==> ComesOutPositive(secs)
  {
    var parts := Directives(lower, cacheControl);
    var i := FirstUsed(parts);
    FirstMaxAgeFacts(parts);
    if FirstMaxAge(parts).Some? {
      WrapPositive(FirstMaxAge(parts).value);
    }
  }

  lemma WrapPositive(secs: int)
    requires secs > 0
    ensures Wrap(secs * SECOND) > 0 <==> ComesOutPositive(secs)
  {
    var x := secs * SECOND;
    MultipleOfAll(secs);
    HalfQuotient(x);
    WrapRange(x);
  }

  lemma WrapRange(x: int)
    ensures Wrap(x) > 0 <==> 0 < x % TWO_64 < TWO_63
  {
    var q, r := x / TWO_64, x % TWO_64;
    assert x + TWO_63 == q * TWO_64 + (r + TWO_63);
  }

  /** 2^63 goes into a number an even number of times when the remainder by 2^64 is below 2^63. */
  lemma HalfQuotient(x: int)
    ensures (x / TWO_63) % 2 == 0 <==> x % TWO_64 < TWO_63
  {
    var q, r := x / TWO_64, x % TWO_64;
    assert x == (2 * q) * TWO_63 + r;
    if r < TWO_63 {
      assert x / TWO_63 == 2 * q;
    } else {
      assert x == (2 * q + 1) * TWO_63 + (r - TWO_63);
      assert x / TWO_63 == 2 * q + 1;
    }
  }

  /** 10^9 is 2^9 times an odd number. */
  lemma MultipleOfAll(secs: int)
    ensures (secs * SECOND) % TWO_64 == 0 <==> secs % TWO_55 == 0
  {
    if (secs * SECOND) % TWO_64 == 0 {
      var q := secs * SECOND / TWO_64;
      assert secs * 1953125 == q * TWO_55;
      OddFactor(secs, q);
    }
    var k := secs / TWO_55;
    assert secs % TWO_55 == 0 ==> secs * SECOND == (k * 1953125) * TWO_64;
  }

  /** 1953125 has an inverse modulo 2^55. */
  lemma OddFactor(secs: int, q: int)
    requires secs * 1953125 == q * TWO_55
    ensures secs % TWO_55 == 0
  {
    assert 1953125 * 20211507185753197 == 1 + 1095668 * TWO_55;
    assert secs == (q * 20211507185753197 - secs * 1095668) * TWO_55;
  }

  // ---- when max-age=N means N seconds ----

  /** The longest max-age whose nanoseconds fit in int64. */
  const LONGEST := 9_223_372_036

  lemma {:induction false} DigitsFacts(s: string)
    requires Digits(s).Some?
    ensures s != [] && forall c :: c in s ==> '0' <= c <= '9'
  {
    if |s| > 1 {
      DigitsFacts(s[..|s| - 1]);
      assert s == s[..|s| - 1] + [s[|s| - 1]];
    }
  }

  /** A directive is used exactly when its number is positive and fits in int64. */
  lemma MaxAgeOf(part: string, s: string, n: nat)
    requires TrimSpace(part) == MAX_AGE + s && Digits(s) == Some(n)
    ensures MaxAge(part) == if 0 < n < TWO_63 then Some(n) else None
  {
    DigitsFacts(s);
    assert s[0] in s;
    assert (MAX_AGE + s)[|MAX_AGE|..] == s;
  }

  lemma {:induction false} FirstMaxAgeAt(parts: seq<string>, i: nat)
    requires i < |parts| && forall j :: 0 <= j < |parts| && j != i ==> MaxAge(parts[j]).None?
    ensures FirstMaxAge(parts) == MaxAge(parts[i])
    decreases i
  {
    if i > 0 {
      FirstMaxAgeAt(parts[1..], i - 1);
    } else if MaxAge(parts[0]).None? {
      FirstMaxAgeFacts(parts[1..]);
    }
  }

  /** A header that allows storing and holds max-age=N, N written in any number of digits, besides directives
      that are not a usable max-age, gives a lifetime of N seconds exactly when N is neither 0 nor above LONGEST. */
  lemma MaxAgeIsExact(lower: Lower, cacheControl: string, i: nat, s: string, n: nat, expiresIn: Option<int>, defaultTtl: int)
    requires var parts := Directives(lower, cacheControl);
      && !Forbidden(lower, cacheControl) && i < |parts| && TrimSpace(parts[i]) == MAX_AGE + s && Digits(s) == Some(n)
      && forall j :: 0 <= j < |parts| && j != i ==> MaxAge(parts[j]).None?
    requires 0 < defaultTtl < TWO_63 && (expiresIn.Some? ==> expiresIn.value < TWO_63)
    ensures TtlOf(lower, cacheControl, expiresIn, defaultTtl) == n * SECOND <==> 0 < n <= LONGEST
    ensures TtlOf(lower, cacheControl, expiresIn, defaultTtl) ==
      if 0 < n < TWO_63 then Wrap(n * SECOND) else Fallback(expiresIn, defaultTtl)
  {
    var parts := Directives(lower, cacheControl);
    FirstMaxAgeAt(parts, i);
    MaxAgeOf(parts[i], s, n);
    WrapExact(n);
  }

  lemma WrapExact(secs: nat)
    ensures Wrap(secs * SECOND) == secs * SECOND <==> secs <= LONGEST
  {
  }

  /** The decimal notation of a number. */
  function Decimal(n: nat): string {
    if n < 10 then [DigitChar(n)] else Decimal(n / 10) + [DigitChar(n % 10)]
  }

  function DigitChar(d: nat): char
    requires d < 10
  {
    '0' + d as char
  }

  lemma {:induction false} DecimalReadsBack(n: nat)
    ensures Digits(Decimal(n)) == Some(n)
  {
    var s := Decimal(n);
    if n >= 10 {
      DecimalReadsBack(n / 10);
      assert s[..|s| - 1] == Decimal(n / 10);
    }
  }

  /** The header max-age=N alone. */
  lemma PlainMaxAge(lower: Lower, n: nat, expiresIn: Option<int>, defaultTtl: int)
    requires LowersAscii(lower) && 0 < defaultTtl < TWO_63 && (expiresIn.Some? ==> expiresIn.value < TWO_63)
    ensures TtlOf(lower, MAX_AGE + Decimal(n), expiresIn, defaultTtl) == n * SECOND <==> 0 < n <= LONGEST
    ensures n == 0 ==> TtlOf(lower, MAX_AGE + Decimal(n), expiresIn, defaultTtl) == Fallback(expiresIn, defaultTtl)
  {
    var s := MAX_AGE + Decimal(n);
    DecimalReadsBack(n);
    DigitsFacts(Decimal(n));
    PlainHeader(lower, s);
    MaxAgeIsExact(lower, s, 0, Decimal(n), n, expiresIn, defaultTtl);
  }

  /** A number with a sign is read, too: a plus changes nothing, a minus makes the directive useless. */
  lemma SignedMaxAge(part: string, sign: char, s: string, n: nat)
    requires sign in {'+', '-'} && TrimSpace(part) == MAX_AGE + [sign] + s && Digits(s) == Some(n)
    ensures MaxAge(part) == if sign == '+' && 0 < n < TWO_63 then Some(n) else None
  {
    var t := [sign] + s;
    assert (MAX_AGE + [sign] + s)[|MAX_AGE|..] == t && t[1..] == s;
  }

  /** White space around a directive does not count. */
  lemma {:induction false} TrimPads(a: string, t: string, b: string)
    requires t != "" && !Blank(t[0]) && !Blank(t[|t| - 1])
    requires (forall c :: c in a ==> Blank(c)) && forall c :: c in b ==> Blank(c)
    ensures TrimSpace(a + t + b) == t
    decreases |a| + |b|
  {
    if a != "" {
      assert a[0] in a && (a + t + b)[1..] == a[1..] + t + b;
      TrimPads(a[1..], t, b);
    } else if b != "" {
      var s := t + b;
      assert a + t + b == s && b[|b| - 1] in b;
      assert s[..|s| - 1] == t + b[..|b| - 1] && a + t + b[..|b| - 1] == t + b[..|b| - 1];
      TrimPads(a, t, b[..|b| - 1]);
    } else {
      assert a + t + b == t;
    }
  }

  lemma {:induction false} SplitAppend(s: string, t: string, sep: char)
    ensures Split(s + [sep] + t, sep) == Split(s, sep) + Split(t, sep)
  {
    var all := s + [sep] + t;
    if s == "" {
      assert all[1..] == t;
    } else {
      assert all[1..] == s[1..] + [sep] + t;
      SplitAppend(s[1..], t, sep);
    }
  }

  lemma {:induction false} TrimInside(s: string)
    ensures exists i: nat, j: nat :: i <= j <= |s| && TrimSpace(s) == s[i..j]
  {
    var i := LeftEnd(s);
    var j := RightEnd(s[i..]);
    assert s[i..][..j] == s[i..i + j];
  }

  lemma {:induction false} LeftEnd(s: string) returns (i: nat)
    ensures i <= |s| && TrimLeft(s) == s[i..]
  {
    i := 0;
    if s != [] && Blank(s[0]) {
      i := LeftEnd(s[1..]);
      i := i + 1;
    }
  }

  lemma {:induction false} RightEnd(s: string) returns (j: nat)
    ensures j <= |s| && TrimRight(s) == s[..j]
  {
    j := |s|;
    if s != [] && Blank(s[|s| - 1]) {
      j := RightEnd(s[..|s| - 1]);
      assert s[..|s| - 1][..j] == s[..j];
    }
  }

  /** Every directive is a stretch of the header. */
  lemma {:induction false} SplitInside(s: string, sep: char, k: nat)
    requires k < |Split(s, sep)|
    ensures exists i: nat, j: nat :: i <= j <= |s| && Split(s, sep)[k] == s[i..j]
    ensures k == 0 ==> exists j: nat :: j <= |s| && Split(s, sep)[0] == s[..j]
  {
    if s == [] {
      assert s[0..0] == "" && s[..0] == "";
    } else {
      var rest := Split(s[1..], sep);
      if s[0] == sep {
        if k == 0 {
          assert s[0..0] == "" && s[..0] == "";
        } else {
          SplitInside(s[1..], sep, k - 1);
          var i: nat, j: nat :| i <= j <= |s[1..]| && rest[k - 1] == s[1..][i..j];
          assert s[i + 1..j + 1] == rest[k - 1];
        }
      } else if k == 0 {
        SplitInside(s[1..], sep, 0);
        var j: nat :| j <= |s[1..]| && rest[0] == s[1..][..j];
        assert s[..j + 1] == [s[0]] + rest[0] && s[0..j + 1] == s[..j + 1];
      } else {
        SplitInside(s[1..], sep, k);
        var i: nat, j: nat :| i <= j <= |s[1..]| && rest[k] == s[1..][i..j];
        assert s[i + 1..j + 1] == rest[k];
      }
    }
  }

  /** What a stretch of a string begins with occurs in the string. */
  lemma BeginsInside(s: string, i: nat, j: nat, a: nat, b: nat, word: string)
    requires i <= j <= |s| && a <= b <= j - i && word <= s[i..j][a..b]
    ensures OccursAt(s, i + a, word)
  {
    var t := s[i..j];
    assert forall k :: 0 <= k < j - i ==> t[k] == s[i + k];
    assert forall k :: 0 <= k < |word| ==> word[k] == t[a..b][k] == t[a + k];
    var u := s[i + a..i + a + |word|];
    assert forall k :: 0 <= k < |word| ==> u[k] == s[i + (a + k)];
    assert u == word;
  }

  /** A header that never says max-age= has no usable max-age. */
  lemma NeverSaid(lower: Lower, header: string, k: nat)
    requires !Says(lower, header, MAX_AGE) && k < |Directives(lower, header)|
    ensures MaxAge(Directives(lower, header)[k]).None?
  {
    var s, part := ToLower(lower, header), Directives(lower, header)[k];
    SplitInside(s, ',', k);
    var i: nat, j: nat :| i <= j <= |s| && part == s[i..j];
    TrimInside(part);
    var a: nat, b: nat :| a <= b <= |part| && TrimSpace(part) == part[a..b];
    if MAX_AGE <= TrimSpace(part) {
      BeginsInside(s, i, j, a, b, MAX_AGE);
      ContainsAt(s, MAX_AGE);
      SaysContains(lower, header, MAX_AGE);
    }
  }

  lemma LowerAppend(lower: Lower, s: string, t: string)
    ensures ToLower(lower, s + t) == ToLower(lower, s) + ToLower(lower, t)
  {
  }

  /** A header in which max-age=N, between commas and padded with blanks and tabs, is the only max-age: N seconds
      exactly when N is neither 0 nor above LONGEST, and the time until Expires or the default when N is 0. */
  lemma MaxAgeInContext(lower: Lower, before: string, a: string, n: nat, b: string, after: string, expiresIn: Option<int>, defaultTtl: int)
    requires LowersAscii(lower) && (forall c :: c in a + b ==> c in {' ', '\t'})
    requires var header := before + "," + (a + "max-age=" + Decimal(n) + b) + "," + after; !SaysNoStore(lower, header)
    requires !Says(lower, before, "max-age=") && !Says(lower, after, "max-age=")
    requires 0 < defaultTtl < TWO_63 && (expiresIn.Some? ==> expiresIn.value < TWO_63)
    ensures var ttl := TtlOf(lower, before + "," + (a + "max-age=" + Decimal(n) + b) + "," + after, expiresIn, defaultTtl);
      && (ttl == n * 1_000_000_000 <==> 0 < n <= 9_223_372_036)
      && (n == 0 ==> ttl == if expiresIn.Some? && expiresIn.value > 0 then expiresIn.value else defaultTtl)
  {
    var mid := a + "max-age=" + Decimal(n) + b;
    var header := before + "," + mid + "," + after;
    var x, z := Directives(lower, before), Directives(lower, after);
    MiddleDirective(lower, a, n, b);
    ThreeParts(lower, before, mid, after);
    forall j | 0 <= j < |Directives(lower, header)| && j != |x| ensures MaxAge(Directives(lower, header)[j]).None? {
      if j < |x| {
        NeverSaid(lower, before, j);
      } else {
        NeverSaid(lower, after, j - |x| - 1);
      }
    }
    DecimalReadsBack(n);
    HeaderDecides(lower, header, expiresIn, defaultTtl);
    SaysContains(lower, header, "no-store");
    SaysContains(lower, header, "no-cache");
    MaxAgeIsExact(lower, header, |x|, Decimal(n), n, expiresIn, defaultTtl);
  }

  lemma ThreeParts(lower: Lower, before: string, mid: string, after: string)
    requires LowersAscii(lower) && Directives(lower, mid) == [ToLower(lower, mid)]
    ensures Directives(lower, before + "," + mid + "," + after) ==
      Directives(lower, before) + [ToLower(lower, mid)] + Directives(lower, after)
  {
    var header := before + "," + mid + "," + after;
    assert ToLower(lower, header) == ToLower(lower, before) + [','] + (ToLower(lower, mid) + [','] + ToLower(lower, after)) by {
      LowerAppend(lower, before + "," + mid + ",", after);
      LowerAppend(lower, before + "," + mid, ",");
      LowerAppend(lower, before + ",", mid);
      LowerAppend(lower, before, ",");
      assert lower(',') == ',' && ToLower(lower, ",") == [','];
    }
    SplitAppend(ToLower(lower, before), ToLower(lower, mid) + [','] + ToLower(lower, after), ',');
    SplitAppend(ToLower(lower, mid), ToLower(lower, after), ',');
  }

  lemma MiddleDirective(lower: Lower, a: string, n: nat, b: string)
    requires LowersAscii(lower) && forall c :: c in a + b ==> c in {' ', '\t'}
    ensures var mid := a + "max-age=" + Decimal(n) + b;
      && Directives(lower, mid) == [ToLower(lower, mid)] && TrimSpace(ToLower(lower, mid)) == MAX_AGE + Decimal(n)
  {
    var t, mid := MAX_AGE + Decimal(n), a + "max-age=" + Decimal(n) + b;
    DecimalReadsBack(n);
    DigitsFacts(Decimal(n));
    assert mid == a + t + b && (forall c :: c in a ==> c in a + b) && forall c :: c in b ==> c in a + b;
    forall k | 0 <= k < |mid| ensures lower(mid[k]) == mid[k] && mid[k] != ',' {
      assert mid[k] in a || mid[k] in t || mid[k] in b;
      if mid[k] in t {
        PlainIsLower(lower, mid[k]);
      }
    }
    assert ToLower(lower, mid) == mid;
    NoSeparator(mid, ',');
    assert t[0] in t && t[|t| - 1] in t;
    PlainIsLower(lower, t[0]);
    PlainIsLower(lower, t[|t| - 1]);
    TrimPads(a, t, b);
  }

  predicate Plain(c: char) {
    c in MAX_AGE || '0' <= c <= '9'
  }

  lemma PlainIsLower(lower: Lower, c: char)
    requires LowersAscii(lower) && Plain(c)
    ensures lower(c) == c && !Blank(c)
  {
    assert MAX_AGE == ['m', 'a', 'x', '-', 'a', 'g', 'e', '='];
    assert c < 128 as char && !('A' <= c <= 'Z');
  }

  lemma PlainHeader(lower: Lower, s: string)
    requires LowersAscii(lower) && s != [] && forall c :: c in s ==> Plain(c)
    ensures !Forbidden(lower, s) && Directives(lower, s) == [s] && TrimSpace(s) == s
  {
    forall k | 0 <= k < |s| ensures lower(s[k]) == s[k] {
      assert Plain(s[k]);
      PlainIsLower(lower, s[k]);
    }
    assert ToLower(lower, s) == s;
    assert !Plain(',') && !Plain('n');
    NoSeparator(s, ',');
    NotIn(s, "no-store");
    NotIn(s, "no-cache");
    assert s[0] in s && s[|s| - 1] in s;
    PlainIsLower(lower, s[0]);
    PlainIsLower(lower, s[|s| - 1]);
  }

  lemma {:induction false} NoSeparator(s: string, sep: char)
    requires sep !in s
    ensures Split(s, sep) == [s]
  {
    if s != [] {
      NoSeparator(s[1..], sep);
      assert s == [s[0]] + s[1..];
    }
  }

  lemma {:induction false} NotIn(s: string, part: string)
    requires part != [] && part[0] !in s
    ensures !Contains(s, part)
  {
    if s != [] {
      NotIn(s[1..], part);
    }
  }
}
