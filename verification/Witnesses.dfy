/** The assumptions can be met: a configuration and a codec that satisfy them, for any 256 texts. */
module Witnesses {
  import opened Prelude
  import opened Encoding
  import opened Tokens
  import ApiKeys

  // ---------- a digest of 32 bytes without collisions on some texts ----------

  ghost predicate Numbers(numbering: map<string, int>, texts: set<string>) {
    && numbering.Keys == texts
    && (forall x :: x in texts ==> 0 <= numbering[x] < |texts|)
    && (forall x, y :: x in texts && y in texts && numbering[x] == numbering[y] ==> x == y)
  }

  lemma {:induction false} Numbering(texts: set<string>) returns (numbering: map<string, int>)
    ensures Numbers(numbering, texts)
  {
    if texts == {} {
      numbering := map[];
    } else {
      var last :| last in texts;
      var rest := Numbering(texts - {last});
      numbering := rest[last := |texts| - 1];
    }
  }

  /** The number of a text in the first byte, and zeros. */
  ghost function Digest(numbering: map<string, int>, x: string): (d: seq<byte>)
    ensures |d| == 32
  {
    var first: byte := if x in numbering && 0 <= numbering[x] < 256 then numbering[x] else 0;
    [first] + seq(31, _ => 0)
  }

  lemma DigestIsCollisionFree(numbering: map<string, int>, texts: set<string>)
    requires Numbers(numbering, texts) && |texts| <= 256
    ensures CollisionFree(x => Digest(numbering, x), texts)
  {
    forall x, y | x in texts && y in texts && Digest(numbering, x) == Digest(numbering, y) ensures x == y {
      assert Digest(numbering, x)[0] == numbering[x] && Digest(numbering, y)[0] == numbering[y];
    }
  }

  // ---------- instants ----------

  function Tally(n: int): string {
    if n < 0 then "-" + seq(-n, _ => 'i') else "+" + seq(n, _ => 'i')
  }

  function UnTally(t: string): int {
    if |t| > 0 && t[0] == '-' then 1 - |t| else |t| - 1
  }

  lemma TallyRoundTrip(n: int)
    ensures UnTally(Tally(n)) == n && ',' !in Tally(n) && '.' !in Tally(n) && ':' !in Tally(n)
  {
  }

  /** Some codec satisfies what is assumed of one and has no collisions among any 256 keys. */
  lemma SomeCodec(keys: set<string>) returns (codec: ApiKeys.Codec)
    requires |keys| <= 256
    ensures ApiKeys.Sound(codec) && CollisionFree(codec.sha256, keys)
  {
    var numbering := Numbering(keys);
    DigestIsCollisionFree(numbering, keys);
    codec := ApiKeys.Codec(x => Digest(numbering, x), t => Tally(t / 1000), s => Some(UnTally(s) * 1000));
    forall t ensures codec.parseStamp(codec.stamp(t)) == Some(ApiKeys.WholeSecond(t)) {
      TallyRoundTrip(t / 1000);
    }
  }

  // ---------- signed claims ----------

  /** A text of counts and commas that stands for any text. */
  function Spelled(s: string): string {
    if s == "" then "" else Tally(s[0] as int) + "," + Spelled(s[1..])
  }

  /** The part before the first separator, and the rest, are told by the whole. */
  lemma Peel(a: string, rest: string, b: string, rest': string, sep: char)
    requires sep !in a && sep !in b && a + [sep] + rest == b + [sep] + rest'
    ensures a == b && rest == rest'
  {
    SplitAfter(a, rest, sep);
    SplitAfter(b, rest', sep);
    assert a == Split(a + [sep] + rest, sep)[0] == b;
    assert rest == (a + [sep] + rest)[|a| + 1..] == (b + [sep] + rest')[|b| + 1..] == rest';
  }

  lemma {:induction false} SpelledFacts(s: string)
    ensures '.' !in Spelled(s) && ':' !in Spelled(s)
  {
    if s != "" {
      SpelledFacts(s[1..]);
      TallyRoundTrip(s[0] as int);
    }
  }

  lemma {:induction false} SpelledInjective(s: string, t: string)
    requires Spelled(s) == Spelled(t)
    ensures s == t
  {
    if s != "" && t != "" {
      TallyRoundTrip(s[0] as int);
      TallyRoundTrip(t[0] as int);
      Peel(Tally(s[0] as int), Spelled(s[1..]), Tally(t[0] as int), Spelled(t[1..]), ',');
      SpelledInjective(s[1..], t[1..]);
      assert s == [s[0]] + s[1..] && t == [t[0]] + t[1..];
    }
  }

  function Expiry(e: Option<int>): string {
    match e case None => "" case Some(t) => Tally(t)
  }

  function Signed(c: Claims): string {
    Spelled(c.uid) + "." + (Spelled(c.subject) + "." + (Spelled(c.jti) + "." + (Tally(c.issuedAt) + "." + Expiry(c.expiresAt))))
  }

  lemma SignedInjective(c: Claims, d: Claims)
    requires Signed(c) == Signed(d)
    ensures c == d
  {
    SpelledFacts(c.uid);
    SpelledFacts(d.uid);
    var c1, d1 := Spelled(c.subject) + "." + (Spelled(c.jti) + "." + (Tally(c.issuedAt) + "." + Expiry(c.expiresAt))),
                  Spelled(d.subject) + "." + (Spelled(d.jti) + "." + (Tally(d.issuedAt) + "." + Expiry(d.expiresAt)));
    Peel(Spelled(c.uid), c1, Spelled(d.uid), d1, '.');
    SpelledFacts(c.subject);
    SpelledFacts(d.subject);
    var c2, d2 := Spelled(c.jti) + "." + (Tally(c.issuedAt) + "." + Expiry(c.expiresAt)),
                  Spelled(d.jti) + "." + (Tally(d.issuedAt) + "." + Expiry(d.expiresAt));
    Peel(Spelled(c.subject), c2, Spelled(d.subject), d2, '.');
    SpelledFacts(c.jti);
    SpelledFacts(d.jti);
    var c3, d3 := Tally(c.issuedAt) + "." + Expiry(c.expiresAt), Tally(d.issuedAt) + "." + Expiry(d.expiresAt);
    Peel(Spelled(c.jti), c3, Spelled(d.jti), d3, '.');
    LastPartsInjective(c, d);
    SpelledInjective(c.uid, d.uid);
    SpelledInjective(c.subject, d.subject);
    SpelledInjective(c.jti, d.jti);
  }

  lemma LastPartsInjective(c: Claims, d: Claims)
    requires Tally(c.issuedAt) + "." + Expiry(c.expiresAt) == Tally(d.issuedAt) + "." + Expiry(d.expiresAt)
    ensures c.issuedAt == d.issuedAt && c.expiresAt == d.expiresAt
  {
    TallyRoundTrip(c.issuedAt);
    TallyRoundTrip(d.issuedAt);
    Peel(Tally(c.issuedAt), Expiry(c.expiresAt), Tally(d.issuedAt), Expiry(d.expiresAt), '.');
    if c.expiresAt.Some? {
      TallyRoundTrip(c.expiresAt.value);
    }
    if d.expiresAt.Some? {
      TallyRoundTrip(d.expiresAt.value);
    }
  }

  lemma SignedHasNoColon(c: Claims)
    ensures ':' !in Signed(c)
  {
    SpelledFacts(c.uid);
    SpelledFacts(c.subject);
    SpelledFacts(c.jti);
    TallyRoundTrip(c.issuedAt);
    if c.expiresAt.Some? {
      TallyRoundTrip(c.expiresAt.value);
    }
  }

  /** The claims a text is signed for, if any. */
  ghost function Decoded(t: string): (r: Option<Claims>)
    ensures r.Some? ==> Signed(r.value) == t
    ensures r.None? ==> forall c :: Signed(c) != t
  {
    if exists c :: Signed(c) == t then var c :| Signed(c) == t; Some(c) else None
  }

  /** Some configuration satisfies what is assumed of one and has no collisions among any 256 texts. */
  lemma SomeConfig(accessTtl: int, refreshTtl: int, texts: set<string>) returns (cfg: Config)
    requires |texts| <= 256
    ensures Sound(cfg) && CollisionFree(cfg.sha256, texts) && cfg.accessTtl == accessTtl && cfg.refreshTtl == refreshTtl
  {
    var numbering := Numbering(texts);
    DigestIsCollisionFree(numbering, texts);
    cfg := Config(accessTtl, refreshTtl, c => Signed(c), t => Decoded(t), t => Decoded(t).Some?, x => Digest(numbering, x));
    forall c ensures cfg.decode(cfg.sign(c)) == Some(c) && cfg.verified(cfg.sign(c)) {
      SignedInjective(c, Decoded(Signed(c)).value);
    }
    forall t | cfg.verified(t) ensures cfg.decode(t).Some? && ':' !in t {
      SignedHasNoColon(Decoded(t).value);
    }
  }
}
