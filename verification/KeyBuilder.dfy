/** The Redis keys of app/services/key_builder.py as strings, and that they never collide. */
module KeyBuilder {
  import opened Arith
  import opened Limiters
  import opened Policies
  import opened PolicyMatcher
  import opened RedisScripts

  function Digit(d: nat): char
    requires d < 10
  {
    "0123456789"[d]
  }

  function Decimal(n: nat): (s: string) {
    if n < 10 then [Digit(n)] else Decimal(n / 10) + [Digit(n % 10)]
  }

  function AlgorithmName(a: Algorithm): string {
    match a
    case UseFixedWindow => "fixed_window"
    case UseSlidingWindowLog => "sliding_window_log"
    case UseTokenBucket => "token_bucket"
  }

  /** `value or default`: no value and the empty one count alike. */
  function Or(value: Option<string>, default: string): string {
    if value.Some? && value.value != "" then value.value else default
  }

  function Segment(selector: Option<string>, name: string, value: string): string {
    if selector.Some? then ":" + name + "=" + value else ""
  }

  /** The part of the key that names the policy version. */
  function Head(p: PolicyRead): string {
    "rl:" + (AlgorithmName(p.payload.algorithm) + (":" + (p.id + (":v" + Decimal(p.version)))))
  }

  function Tail(p: PolicyRead, i: RequestIdentity): string {
    var s := p.payload.selectors;
    Segment(s.route, "route", i.route)
    + Segment(s.userId, "user", if s.userId.Some? then Or(i.userId, s.userId.value) else "")
    + Segment(s.ipAddress, "ip", if s.ipAddress.Some? then Or(i.ipAddress, s.ipAddress.value) else "")
    + Segment(s.tenantId, "tenant", if s.tenantId.Some? then Or(i.tenantId, s.tenantId.value) else "")
    + Segment(s.apiKey, "api_key", if s.apiKey.Some? then Or(i.apiKey, s.apiKey.value) else "")
  }

  function RateLimitKey(p: PolicyRead, i: RequestIdentity): string {
    Head(p) + Tail(p, i)
  }

  function Joined(segments: seq<string>): string {
    if segments == [] then ""
    else if |segments| == 1 then segments[0]
    else Joined(segments[..|segments| - 1]) + ":" + segments[|segments| - 1]
  }

  lemma JoinedSnoc(segments: seq<string>, s: string)
    ensures Joined(segments + [s]) == if segments == [] then s else Joined(segments) + ":" + s
  {
    assert (segments + [s])[..|segments|] == segments;
  }

  method AppendSegment(segments: seq<string>, selector: Option<string>, name: string, value: string)
    returns (more: seq<string>)
    requires segments != []
    ensures more != [] && Joined(more) == Joined(segments) + Segment(selector, name, value)
  {
    more := segments;
    if selector.Some? {
      JoinedSnoc(segments, name + "=" + value);
      more := more + [name + "=" + value];
      assert ":" + (name + "=" + value) == ":" + name + "=" + value;
    }
  }

  method BuildRateLimitKey(p: PolicyRead, i: RequestIdentity) returns (key: string)
    ensures key == RateLimitKey(p, i)
  {
    var segments := HeadSegments(p);
    var s := p.payload.selectors;
    ghost var head := Head(p);
    segments := AppendSegment(segments, s.route, "route", i.route);
    var user := if s.userId.Some? then Or(i.userId, s.userId.value) else "";
    segments := AppendSegment(segments, s.userId, "user", user);
    var ip := if s.ipAddress.Some? then Or(i.ipAddress, s.ipAddress.value) else "";
    segments := AppendSegment(segments, s.ipAddress, "ip", ip);
    var tenant := if s.tenantId.Some? then Or(i.tenantId, s.tenantId.value) else "";
    segments := AppendSegment(segments, s.tenantId, "tenant", tenant);
    var apiKey := if s.apiKey.Some? then Or(i.apiKey, s.apiKey.value) else "";
    segments := AppendSegment(segments, s.apiKey, "api_key", apiKey);
    key := Joined(segments);
    FiveTails(head, Segment(s.route, "route", i.route), Segment(s.userId, "user", user),
              Segment(s.ipAddress, "ip", ip), Segment(s.tenantId, "tenant", tenant),
              Segment(s.apiKey, "api_key", apiKey));
  }

  method HeadSegments(p: PolicyRead) returns (segments: seq<string>)
    ensures segments != [] && Joined(segments) == Head(p)
  {
    hide AlgorithmName, Decimal;
    segments := ["rl", AlgorithmName(p.payload.algorithm), p.id, "v" + Decimal(p.version)];
    JoinFour("rl", AlgorithmName(p.payload.algorithm), p.id, "v" + Decimal(p.version));
    FourParts(AlgorithmName(p.payload.algorithm), p.id, Decimal(p.version));
  }

  lemma JoinFour(a: string, b: string, c: string, d: string)
    ensures Joined([a, b, c, d]) == a + ":" + b + ":" + c + ":" + d
  {
    hide Joined;
    assert [a] + [b] + [c] + [d] == [a, b, c, d];
    JoinedOne(a);
    JoinedSnoc([a], b);
    JoinedSnoc([a] + [b], c);
    JoinedSnoc([a] + [b] + [c], d);
  }

  lemma JoinedOne(a: string)
    ensures Joined([a]) == a
  {
  }

  lemma FourParts(b: string, c: string, d: string)
    ensures "rl" + ":" + b + ":" + c + ":" + ("v" + d) == "rl:" + (b + (":" + (c + (":v" + d))))
  {
  }

  lemma FiveTails(h: string, a: string, b: string, c: string, d: string, e: string)
    ensures h + a + b + c + d + e == h + (a + b + c + d + e)
  {
  }

  // ----- one key for all requests of a policy -----

  /** All requests that a policy matches share one key. */
  lemma OneKeyPerPolicy(p: PolicyRead, i: RequestIdentity, j: RequestIdentity)
    requires PolicyMatches(p, i) && PolicyMatches(p, j)
    ensures RateLimitKey(p, i) == RateLimitKey(p, j)
  {
  }

  // ----- keys of different policy versions -----

  predicate NoColon(s: string) { ':' !in s }

  /** Nothing, or a further segment. */
  predicate Rest(s: string) { s == "" || s[0] == ':' }

  lemma NextChar(a: string, x: string, b: string, y: string)
    requires a + x == b + y && |a| < |b|
    ensures x != "" && x[0] == b[|a|]
  {
    assert (a + x)[|a|] == (b + y)[|a|];
  }

  lemma SplitHead(a: string, x: string, b: string, y: string)
    requires NoColon(a) && NoColon(b) && Rest(x) && Rest(y) && a + x == b + y
    ensures a == b && x == y
  {
    if |a| < |b| {
      NextChar(a, x, b, y);
    } else if |b| < |a| {
      NextChar(b, y, a, x);
    } else {
      assert a == (a + x)[..|a|] && b == (b + y)[..|a|];
      assert x == (a + x)[|a|..] && y == (b + y)[|a|..];
    }
  }

  predicate AllDigits(s: string) { forall c :: c in s ==> '0' <= c <= '9' }

  lemma {:induction false} DecimalDigits(n: nat)
    ensures AllDigits(Decimal(n)) && NoColon(Decimal(n)) && Decimal(n) != ""
  {
    if n >= 10 {
      DecimalDigits(n / 10);
    }
  }

  /** What a row of digits stands for. */
  function Read(digits: string): int {
    if digits == [] then 0
    else Read(digits[..|digits| - 1]) * 10 + (digits[|digits| - 1] as int - '0' as int)
  }

  /** Decimals are read as one expects, and have no leading zero. */
  lemma {:induction false} DecimalReads(n: nat)
    ensures AllDigits(Decimal(n)) && Read(Decimal(n)) == n
    ensures Decimal(n) != "" && (n > 0 ==> Decimal(n)[0] != '0')
  {
    DecimalDigits(n);
    if n >= 10 {
      DecimalReads(n / 10);
      var (front, last) := (Decimal(n / 10), Digit(n % 10));
      assert Decimal(n) == front + [last];
      assert (front + [last])[..|front|] == front;
    } else {
      assert Read("") == 0;
      assert [Digit(n)][..0] == "";
    }
  }

  lemma {:induction false} DecimalInjective(m: nat, n: nat)
    requires Decimal(m) == Decimal(n)
    ensures m == n
  {
    DecimalDigits(m / 10);
    DecimalDigits(n / 10);
    if m >= 10 && n >= 10 {
      LastDigit(Decimal(m / 10), m % 10, Decimal(n / 10), n % 10);
      DecimalInjective(m / 10, n / 10);
    }
  }

  lemma LastDigit(x: string, d: nat, y: string, e: nat)
    requires d < 10 && e < 10 && x + [Digit(d)] == y + [Digit(e)]
    ensures x == y && d == e
  {
    var (s, t) := (x + [Digit(d)], y + [Digit(e)]);
    assert x == s[..|s| - 1] && y == t[..|t| - 1];
    assert s[|s| - 1] == Digit(d) && t[|t| - 1] == Digit(e);
  }

  lemma DropPrefix(a: string, x: string, y: string)
    requires a + x == a + y
    ensures x == y
  {
    assert x == (a + x)[|a|..] && y == (a + y)[|a|..];
  }

  /** A string that begins with the head of a policy tells its id, version and algorithm. */
  lemma HeadsDiffer(p: PolicyRead, x: string, q: PolicyRead, y: string)
    requires NoColon(p.id) && NoColon(q.id) && Rest(x) && Rest(y)
    requires Head(p) + x == Head(q) + y
    ensures p.id == q.id && p.version == q.version && p.payload.algorithm == q.payload.algorithm && x == y
  {
    var (a, b) := (AlgorithmName(p.payload.algorithm), AlgorithmName(q.payload.algorithm));
    var (v, w) := (Decimal(p.version), Decimal(q.version));
    DecimalDigits(p.version);
    DecimalDigits(q.version);
    HeadParts(p, x);
    HeadParts(q, y);
    DropPrefix("rl:", a + (":" + (p.id + (":v" + (v + x)))), b + (":" + (q.id + (":v" + (w + y)))));
    SplitHead(a, ":" + (p.id + (":v" + (v + x))), b, ":" + (q.id + (":v" + (w + y))));
    DropPrefix(":", p.id + (":v" + (v + x)), q.id + (":v" + (w + y)));
    SplitHead(p.id, ":v" + (v + x), q.id, ":v" + (w + y));
    DropPrefix(":v", v + x, w + y);
    SplitHead(v, x, w, y);
    DecimalInjective(p.version, q.version);
    AlgorithmNames(p.payload.algorithm, q.payload.algorithm);
  }

  lemma HeadParts(p: PolicyRead, x: string)
    ensures Head(p) + x ==
            "rl:" + (AlgorithmName(p.payload.algorithm) + (":" + (p.id + (":v" + (Decimal(p.version) + x)))))
    ensures NoColon(AlgorithmName(p.payload.algorithm))
  {
  }

  lemma AlgorithmNames(a: Algorithm, b: Algorithm)
    requires AlgorithmName(a) == AlgorithmName(b)
    ensures a == b
  {
    assert |AlgorithmName(a)| == |AlgorithmName(b)|;
    assert "fixed_window"[0] != "token_bucket"[0];
  }

  lemma TailIsRest(p: PolicyRead, i: RequestIdentity)
    ensures Rest(Tail(p, i))
  {
  }

  /** Requests under different policies, or versions of one, never share a key. */
  lemma KeysNeverCollide(p: PolicyRead, i: RequestIdentity, q: PolicyRead, j: RequestIdentity)
    requires NoColon(p.id) && NoColon(q.id) && RateLimitKey(p, i) == RateLimitKey(q, j)
    ensures p.id == q.id && p.version == q.version && p.payload.algorithm == q.payload.algorithm
  {
    TailIsRest(p, i);
    TailIsRest(q, j);
    HeadsDiffer(p, Tail(p, i), q, Tail(q, j));
  }

  // ----- the names under which Redis stores them -----

  /** The scripts store under the key itself, or, for the fixed window, with the window start. */
  function StoreName(k: StoreKey): string
    requires k.Windowed? ==> k.windowStart >= 0
  {
    match k
    case Plain(key) => key
    case Windowed(key, windowStart) => key + (":" + Decimal(windowStart))
  }

  lemma ColonInside(x: string, v: string, y: string, w: string)
    requires x + (":" + v) == y + (":" + w) && |x| < |y|
    ensures |y| - |x| - 1 < |v| && v[|y| - |x| - 1] == ':'
  {
    var (s, t) := (x + (":" + v), y + (":" + w));
    assert s[|y|] == t[|y|];
  }

  lemma SplitLast(x: string, v: string, y: string, w: string)
    requires NoColon(v) && NoColon(w) && x + (":" + v) == y + (":" + w)
    ensures x == y && v == w
  {
    if |x| < |y| {
      ColonInside(x, v, y, w);
    } else if |y| < |x| {
      ColonInside(y, w, x, v);
    } else {
      var (s, t) := (x + (":" + v), y + (":" + w));
      assert x == s[..|x|] && y == t[..|x|];
      assert v == s[|x| + 1..] && w == t[|x| + 1..];
    }
  }

  /** The store key that serves a request: what kind it is follows from the algorithm. */
  predicate Serves(k: StoreKey, p: PolicyRead, i: RequestIdentity) {
    && k.key == RateLimitKey(p, i)
    && (k.Windowed? <==> p.payload.algorithm.UseFixedWindow?)
    && (k.Windowed? ==> k.windowStart >= 0)
  }

  lemma StoreNameParts(k: StoreKey, p: PolicyRead, i: RequestIdentity) returns (rest: string)
    requires Serves(k, p, i)
    ensures Rest(rest) && StoreName(k) == Head(p) + rest
  {
    hide Head, Tail, Decimal;
    TailIsRest(p, i);
    rest := if k.Plain? then Tail(p, i) else Tail(p, i) + (":" + Decimal(k.windowStart));
  }

  /** Redis never finds one policy's counter under another's name, nor one window's under
    * another's: equal names mean equal store keys, of one policy version. */
  lemma StoreNamesNeverCollide(k: StoreKey, p: PolicyRead, i: RequestIdentity,
                               l: StoreKey, q: PolicyRead, j: RequestIdentity)
    requires NoColon(p.id) && NoColon(q.id) && Serves(k, p, i) && Serves(l, q, j)
    requires StoreName(k) == StoreName(l)
    ensures k == l && p.id == q.id && p.version == q.version
  {
    var x := StoreNameParts(k, p, i);
    var y := StoreNameParts(l, q, j);
    HeadsDiffer(p, x, q, y);
    if k.Windowed? {
      DecimalDigits(k.windowStart);
      DecimalDigits(l.windowStart);
      SplitLast(k.key, Decimal(k.windowStart), l.key, Decimal(l.windowStart));
      DecimalInjective(k.windowStart, l.windowStart);
    }
  }
}
