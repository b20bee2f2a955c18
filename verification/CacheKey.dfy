/**
 The cache key of a backend search job: what it is made of, when there is none, and why two jobs that
 differ cannot share one.
 */
module CacheKey {

  datatype Prefix = SearchJob | SearchTag | SearchTagValues | QueryRange

  function PrefixText(p: Prefix): string {
    match p
    case SearchJob => "sj:"
    case SearchTag => "st:"
    case SearchTagValues => "stv:"
    case QueryRange => "qr:"
  }

  function Digit(d: nat): char
    requires d < 10
  {
    "0123456789"[d]
  }

  /** A number in base ten, as FormatUint and Itoa print it. */
  function Decimal(n: nat): string {
    if n < 10 then [Digit(n)] else Decimal(n / 10) + [Digit(n % 10)]
  }

  function DigitValue(c: char): nat {
    if '0' <= c <= '9' then c as nat - '0' as nat else 0
  }

  function Value(s: string): nat {
    if |s| == 0 then 0 else 10 * Value(s[..|s| - 1]) + DigitValue(s[|s| - 1])
  }

  lemma DigitRoundTrip(d: nat)
    requires d < 10
    ensures DigitValue(Digit(d)) == d && Digit(d) != ':'
  {
  }

  lemma {:induction false} DecimalRoundTrip(n: nat)
    ensures Value(Decimal(n)) == n && NoColon(Decimal(n)) && Decimal(n) != ""
  {
    if n < 10 {
      DigitRoundTrip(n);
      assert [Digit(n)][..0] == "";
    } else {
      var high, low := n / 10, n % 10;
      DigitRoundTrip(low);
      DecimalRoundTrip(high);
      assert Decimal(n) == Decimal(high) + [Digit(low)];
      assert Decimal(n)[..|Decimal(n)| - 1] == Decimal(high);
    }
  }

  predicate NoColon(s: string) {
    forall i :: 0 <= i < |s| ==> s[i] != ':'
  }

  /** A block's 36-character ID text has no colon. */
  type BlockText = s: string | NoColon(s) witness ""

  /** What a key is about. */
  datatype Job = Job(prefix: Prefix, tenant: string, hash: nat, block: BlockText, startPage: nat, pages: nat)

  function KeyOf(j: Job): string {
    PrefixText(j.prefix) + j.tenant + ":" + Decimal(j.hash) + ":" + j.block + ":" + Decimal(j.startPage) + ":" + Decimal(j.pages)
  }

  /** A job can be cached if its query has a hash and the search range holds the block's, bounds excluded. */
  predicate Cacheable(j: Job, start: int, end: int, blockStart: int, blockEnd: int) {
    j.hash != 0 && start < blockStart && blockEnd < end
  }

  /** cacheKey. */
  method BuildKey(j: Job, start: int, end: int, blockStart: int, blockEnd: int) returns (key: string)
    ensures key == if Cacheable(j, start, end, blockStart, blockEnd) then KeyOf(j) else ""
    ensures key == "" <==> j.hash == 0 || blockStart <= start || end <= blockEnd
  {
    if j.hash == 0 { return ""; }
    if !(start < blockStart && end > blockEnd) { return ""; }
    key := PrefixText(j.prefix);
    key := key + j.tenant;
    key := key + ":";
    key := key + Decimal(j.hash);
    key := key + ":";
    key := key + j.block;
    key := key + ":";
    key := key + Decimal(j.startPage);
    key := key + ":";
    key := key + Decimal(j.pages);
  }

  /** Where a text with a colon-free tail has its last colon. */
  lemma LastColon(a: string, x: string)
    requires NoColon(x)
    ensures var s := a + ":" + x; s[|a|] == ':' && forall i :: |a| < i < |s| ==> s[i] != ':'
  {
    var s := a + ":" + x;
    forall i | |a| < i < |s| ensures s[i] != ':' {
      assert s[i] == x[i - |a| - 1];
    }
  }

  lemma SplitAtLastColon(a: string, x: string, b: string, y: string)
    requires NoColon(x) && NoColon(y) && a + ":" + x == b + ":" + y
    ensures a == b && x == y
  {
    var s := a + ":" + x;
    LastColon(a, x);
    LastColon(b, y);
    assert a == s[..|a|] && b == s[..|b|];
    assert x == s[|a| + 1..] && y == s[|b| + 1..];
  }

  /** The four prefixes cannot be confused, whatever tenant follows. */
  lemma PrefixInjective(p: Prefix, t: string, q: Prefix, u: string)
    requires PrefixText(p) + t == PrefixText(q) + u
    ensures p == q && t == u
  {
    var s := PrefixText(p) + t;
    assert s[0] == PrefixText(p)[0] && s[1] == PrefixText(p)[1] && s[2] == PrefixText(p)[2];
    assert s[0] == PrefixText(q)[0] && s[1] == PrefixText(q)[1] && s[2] == PrefixText(q)[2];
    assert t == s[|PrefixText(p)|..] && u == s[|PrefixText(q)|..];
  }

  /** Equal keys are about the same job, even when tenants contain colons: a key is read from the right. */
  lemma KeysAreInjective(j: Job, k: Job)
    requires KeyOf(j) == KeyOf(k)
    ensures j == k
  {
    DecimalRoundTrip(j.pages);
    DecimalRoundTrip(k.pages);
    DecimalRoundTrip(j.startPage);
    DecimalRoundTrip(k.startPage);
    DecimalRoundTrip(j.hash);
    DecimalRoundTrip(k.hash);
    var tj, tk := PrefixText(j.prefix) + j.tenant, PrefixText(k.prefix) + k.tenant;
    var hj, hk := tj + ":" + Decimal(j.hash), tk + ":" + Decimal(k.hash);
    var bj, bk := hj + ":" + j.block, hk + ":" + k.block;
    SplitAtLastColon(bj + ":" + Decimal(j.startPage), Decimal(j.pages), bk + ":" + Decimal(k.startPage), Decimal(k.pages));
    SplitAtLastColon(bj, Decimal(j.startPage), bk, Decimal(k.startPage));
    SplitAtLastColon(hj, j.block, hk, k.block);
    SplitAtLastColon(tj, Decimal(j.hash), tk, Decimal(k.hash));
    PrefixInjective(j.prefix, j.tenant, k.prefix, k.tenant);
  }

  /** So two cached jobs share an entry exactly when they are the same job. */
  lemma SharedKeyMeansSameJob(j: Job, jr: (int, int), jb: (int, int), k: Job, kr: (int, int), kb: (int, int), key: string)
    requires key != ""
    requires key == if Cacheable(j, jr.0, jr.1, jb.0, jb.1) then KeyOf(j) else ""
    requires key == if Cacheable(k, kr.0, kr.1, kb.0, kb.1) then KeyOf(k) else ""
    ensures j == k && j.hash != 0 && jr.0 < jb.0 && jb.1 < jr.1 && kr.0 < kb.0 && kb.1 < kr.1
  {
    KeysAreInjective(j, k);
  }
}
