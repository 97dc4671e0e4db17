/** The chameleon hash (crypto/chameleon_hash.go): hashing with hex-encoded parameters, and the trapdoor that
    finds a check string under which another message has the same hash.
    SHA-256 is the parameter `sha`; random draws (x, tk, k) are arguments. */
module ChameleonHash {
  import opened Encoding
  import opened NumberTheory
  import opened Words

  // Every field is a number in hexadecimal ASCII.
  datatype Parameters = Parameters(G: Bytes, P: Bytes, Q: Bytes, HK: Bytes, TK: Bytes)

  datatype CheckString = CheckString(R: Bytes, S: Bytes)

  // -------------------- keys, hash and collision --------------------

  // copy(result[:], bytes) into a fresh [32]byte.
  function LeftAligned(bytes: Bytes): (hash: Bytes)
    ensures |hash| == 32
  {
    if |bytes| >= 32 then bytes[..32] else bytes + Zeros(32 - |bytes|)
  }

  ghost predicate IsKey(params: Parameters) {
    && IsHex(params.G) && IsHex(params.P) && IsHex(params.Q) && IsHex(params.HK) && IsHex(params.TK)
    && ParseHex(params.P) > 0 && ParseHex(params.Q) > 0
  }

  predicate IsCheckString(check: CheckString) { IsHex(check.R) && IsHex(check.S) }

  function Exp(base: nat, e: nat, modulus: nat): (r: nat)
    requires modulus > 0
  {
    Pow(base, e) % modulus
  }

  // keygen, for the drawn prime p and the drawn numbers x and tk.
  function KeyGen(p: nat, x: nat, tk: nat): (params: Parameters)
    requires p > 2
    ensures IsKey(params)
  {
    var q := (p - 1) / 2;
    var g := Exp(x, 2, p);
    var hk := Exp(g, tk, p);
    HexRoundTrip(g); HexRoundTrip(p); HexRoundTrip(q); HexRoundTrip(hk); HexRoundTrip(tk);
    Parameters(Hex(g), Hex(p), Hex(q), Hex(hk), Hex(tk))
  }

  // The number whose bytes the hash copies: r - (hk^e * g^s mod p), mod q.
  function HashNumber(params: Parameters, check: CheckString, message: Bytes, sha: Bytes -> Bytes): nat
    requires IsKey(params) && IsCheckString(check)
  {
    var g, p, q, hk := ParseHex(params.G), ParseHex(params.P), ParseHex(params.Q), ParseHex(params.HK);
    var r, s := ParseHex(check.R), ParseHex(check.S);
    var e := Value(sha(message + Hex(r)));
    var tmp := (Exp(hk, e, p) * Exp(g, s, p)) % p;
    (r - tmp) % q
  }

  function Hash(params: Parameters, check: CheckString, message: Bytes, sha: Bytes -> Bytes): (hash: Bytes)
    requires IsKey(params) && IsCheckString(check)
    ensures |hash| == 32
  {
    LeftAligned(BigEndian(HashNumber(params, check, message, sha)))
  }

  function GenerateChCollision(params: Parameters, check: CheckString, oldMessage: Bytes, newMessage: Bytes, k: nat,
                               sha: Bytes -> Bytes): (renewed: CheckString)
    requires IsKey(params) && IsCheckString(check)
    ensures IsCheckString(renewed)
  {
    var g, p, q, tk := ParseHex(params.G), ParseHex(params.P), ParseHex(params.Q), ParseHex(params.TK);
    var h := Value(Hash(params, check, oldMessage, sha));
    var r2 := (h + Exp(g, k, p)) % q;
    var e := Value(sha(newMessage + Hex(r2)));
    var s2 := (k - (e * tk) % q) % q;
    HexRoundTrip(r2);
    HexRoundTrip(s2);
    CheckString(Hex(r2), Hex(s2))
  }

  // -------------------- the trapdoor --------------------

  // What keygen's draws make of the parameters, p being an odd prime and x a unit.
  ghost predicate FromKeyGen(params: Parameters) {
    exists p: nat, x: nat, tk: nat :: Drawn(params, p, x, tk)
  }

  ghost predicate Drawn(params: Parameters, p: nat, x: nat, tk: nat) {
    p > 2 && Prime(p) && x % p != 0 && params == KeyGen(p, x, tk)
  }

  // g = x^2 has order dividing q = (p - 1) / 2, by Fermat.
  lemma SquareHasOrderQ(p: nat, x: nat)
    requires p > 2 && Prime(p) && x % p != 0
    ensures Cong(Pow(Exp(x, 2, p), (p - 1) / 2), 1, p)
  {
    hide Cong, Pow;
    var q := (p - 1) / 2;
    assert p % 2 != 0 by { assert 2 <= 2 < p; }
    assert 2 * q == p - 1;
    Fermat(p, x);
    PowMul(x, 2, q);
    ModCong(Pow(x, 2), p);
    PowCong(Exp(x, 2, p), Pow(x, 2), q, p);
    CongTrans(Pow(Exp(x, 2, p), q), Pow(Pow(x, 2), q), 1, p);
  }

  // The numbers behind generated parameters, with g^q = 1.
  lemma Numbers(params: Parameters) returns (p: nat, q: nat, g: nat, tk: nat)
    requires FromKeyGen(params) && IsKey(params)
    ensures p > 0 && q > 0 && Cong(Pow(g, q), 1, p)
    ensures ParseHex(params.P) == p && ParseHex(params.Q) == q && ParseHex(params.G) == g && ParseHex(params.TK) == tk
    ensures ParseHex(params.HK) == Exp(g, tk, p)
  {
    hide Cong, Pow, Hex, ParseHex, Prime;
    var x: nat;
    p, x, tk :| Drawn(params, p, x, tk);
    g, q := Exp(x, 2, p), (p - 1) / 2;
    HexRoundTrip(g); HexRoundTrip(p); HexRoundTrip(q); HexRoundTrip(Exp(g, tk, p)); HexRoundTrip(tk);
    SquareHasOrderQ(p, x);
  }

  // k + tk * (met - made) as an exponent of an element of order q.
  function MovedExponent(q: nat, tk: nat, made: nat, met: nat, k: nat): (f: nat)
    requires q > 0
  {
    (k + tk * (met - made)) % q
  }

  // hk^met * g^s = g^(k + tk * (met - made)) (mod p) when s = k - made * tk (mod q): `made` is the exponent the check
  // string was made for, `met` the one the hash uses.
  lemma TrapdoorAt(p: nat, q: nat, g: nat, tk: nat, made: nat, met: nat, k: nat, s: nat)
    requires p > 0 && q > 0 && Cong(Pow(g, q), 1, p) && s == (k - (made * tk) % q) % q
    ensures (Exp(Exp(g, tk, p), met, p) * Exp(g, s, p)) % p == Exp(g, MovedExponent(q, tk, made, met, k), p)
  {
    hide Cong, Pow;
    var hk, f := Exp(g, tk, p), MovedExponent(q, tk, made, met, k);
    ModCong(Pow(g, tk), p);
    PowCong(hk, Pow(g, tk), met, p);
    PowMul(g, tk, met);
    ModCong(Pow(hk, met), p);
    CongTrans(Exp(hk, met, p), Pow(hk, met), Pow(g, tk * met), p);
    ModCong(Pow(g, s), p);
    CongMul(Exp(hk, met, p), Pow(g, tk * met), Exp(g, s, p), Pow(g, s), p);
    PowAdd(g, tk * met, s);
    ExponentsMeet(q, tk, made, met, k, s);
    PowModOrder(g, tk * met + s, f, q, p);
    CongTrans(Exp(hk, met, p) * Exp(g, s, p), Pow(g, tk * met + s), Pow(g, f), p);
    CongMod(Exp(hk, met, p) * Exp(g, s, p), Pow(g, f), p);
  }

  lemma ExponentsMeet(q: nat, tk: nat, made: nat, met: nat, k: nat, s: nat)
    requires q > 0 && s == (k - (made * tk) % q) % q
    ensures tk * met >= 0 && (tk * met + s) % q == MovedExponent(q, tk, made, met, k) % q
  {
    hide Cong;
    var t, u := tk * made, tk * met;
    assert made * tk == t && t >= 0 && u >= 0;
    ModCong(t, q);
    ModCong(k - t % q, q);
    CongRefl(k, q);
    CongAdd(k, k, t % q, t, q);
    CongTrans(s, k - t % q, k - t, q);
    CongRefl(u, q);
    CongAdd(u, u, s, k - t, q);
    assert u + (k - t) == k + tk * (met - made);
    CongMod(u + s, k + tk * (met - made), q);
    SmallModulo((k + tk * (met - made)) % q, q);
  }

  // hk^e * g^s = g^k (mod p) when s = k - e * tk (mod q).
  lemma Trapdoor(p: nat, q: nat, g: nat, tk: nat, e: nat, k: nat, s: nat)
    requires p > 0 && q > 0 && Cong(Pow(g, q), 1, p) && s == (k - (e * tk) % q) % q
    ensures (Exp(Exp(g, tk, p), e, p) * Exp(g, s, p)) % p == Exp(g, k, p)
  {
    TrapdoorAt(p, q, g, tk, e, e, k, s);
    SameExponent(p, q, g, tk, e, k);
  }

  lemma SameExponent(p: nat, q: nat, g: nat, tk: nat, e: nat, k: nat)
    requires p > 0 && q > 0 && Cong(Pow(g, q), 1, p)
    ensures Exp(g, MovedExponent(q, tk, e, e, k), p) == Exp(g, k, p)
  {
    hide Cong, Pow;
    assert tk * (e - e) == 0;
    SmallModulo(k % q, q);
    PowModOrder(g, k % q, k, q, p);
    CongMod(Pow(g, k % q), Pow(g, k), p);
  }

  // A hash that survives being read as a number, reduced mod q and copied back.
  predicate Stable(params: Parameters, hash: Bytes)
    requires IsHex(params.Q) && ParseHex(params.Q) > 0
  {
    LeftAligned(BigEndian(Value(hash) % ParseHex(params.Q))) == hash
  }

  // The exponent of hk in the hash of a message, with r as the number parses.
  function Exponent(message: Bytes, check: CheckString, sha: Bytes -> Bytes): nat
    requires IsHex(check.R)
  {
    Value(sha(message + Hex(ParseHex(check.R))))
  }

  // h, moved by what g^k and g^(k + tk * (met - made)) differ.
  function Renumbered(params: Parameters, h: nat, made: nat, met: nat, k: nat): nat
    requires IsKey(params)
  {
    var g, p, q, tk := ParseHex(params.G), ParseHex(params.P), ParseHex(params.Q), ParseHex(params.TK);
    (h + Exp(g, k, p) - Exp(g, MovedExponent(q, tk, made, met, k), p)) % q
  }

  // The number hashed when the check string made for `newMessage` meets `actual` instead.
  lemma HashOfOther(params: Parameters, check: CheckString, oldMessage: Bytes, newMessage: Bytes, actual: Bytes, k: nat,
                    sha: Bytes -> Bytes)
    requires FromKeyGen(params) && IsKey(params) && IsCheckString(check)
    ensures var renewed := GenerateChCollision(params, check, oldMessage, newMessage, k, sha);
            HashNumber(params, renewed, actual, sha)
              == Renumbered(params, Value(Hash(params, check, oldMessage, sha)), Exponent(newMessage, renewed, sha),
                            Exponent(actual, renewed, sha), k)
  {
    hide Cong, Pow, Hash, HashNumber, Value, Hex, ParseHex, FromKeyGen, Exp, MovedExponent;
    var p, q, g, tk := Numbers(params);
    var h := Value(Hash(params, check, oldMessage, sha));
    var r2 := (h + Exp(g, k, p)) % q;
    var made, met := Value(sha(newMessage + Hex(r2))), Value(sha(actual + Hex(r2)));
    var s2 := (k - (made * tk) % q) % q;
    HexRoundTrip(r2);
    HexRoundTrip(s2);
    TrapdoorAt(p, q, g, tk, made, met, k, s2);
    var t := Exp(g, MovedExponent(q, tk, made, met, k), p);
    SubtractModulo(h + Exp(g, k, p), t, q);
    var renewed := GenerateChCollision(params, check, oldMessage, newMessage, k, sha);
    assert renewed == CheckString(Hex(r2), Hex(s2));
    HashNumberIs(params, renewed, actual, sha, g, p, q, Exp(g, tk, p), r2, s2);
  }

  // The hash under a generated check string depends on nothing but the old hash.
  lemma CollisionHash(params: Parameters, check: CheckString, oldMessage: Bytes, newMessage: Bytes, k: nat,
                      sha: Bytes -> Bytes)
    requires FromKeyGen(params) && IsKey(params) && IsCheckString(check)
    ensures var renewed := GenerateChCollision(params, check, oldMessage, newMessage, k, sha);
            HashNumber(params, renewed, newMessage, sha)
              == Value(Hash(params, check, oldMessage, sha)) % ParseHex(params.Q)
  {
    hide FromKeyGen, IsKey, Hash, HashNumber, GenerateChCollision, Renumbered, Exponent, Value, ParseHex;
    HashOfOther(params, check, oldMessage, newMessage, newMessage, k, sha);
    var renewed := GenerateChCollision(params, check, oldMessage, newMessage, k, sha);
    RenumberedSame(params, Value(Hash(params, check, oldMessage, sha)), Exponent(newMessage, renewed, sha), k);
  }

  lemma RenumberedSame(params: Parameters, h: nat, e: nat, k: nat)
    requires FromKeyGen(params) && IsKey(params)
    ensures Renumbered(params, h, e, e, k) == h % ParseHex(params.Q)
  {
    hide Cong, Pow, ParseHex, FromKeyGen, Exp, MovedExponent;
    var p, q, g, tk := Numbers(params);
    SameExponent(p, q, g, tk, e, k);
  }

  lemma HashNumberIs(params: Parameters, check: CheckString, message: Bytes, sha: Bytes -> Bytes,
                     g: nat, p: nat, q: nat, hk: nat, r: nat, s: nat)
    requires IsKey(params) && IsCheckString(check)
    requires ParseHex(params.G) == g && ParseHex(params.P) == p && ParseHex(params.Q) == q && ParseHex(params.HK) == hk
    requires ParseHex(check.R) == r && ParseHex(check.S) == s
    ensures HashNumber(params, check, message, sha)
         == (r - (Exp(hk, Value(sha(message + Hex(r))), p) * Exp(g, s, p)) % p) % q
  {
  }

  lemma SubtractModulo(h: int, t: int, q: nat)
    requires q > 0
    ensures (h % q - t) % q == (h - t) % q
  {
    hide Cong;
    ModCong(h, q);
    CongRefl(t, q);
    CongAdd(h % q, h, t, t, q);
    CongMod(h % q - t, h - t, q);
  }

  // The collision promise, exactly: for every new message and every draw of k the old hash is met
  // if and only if the old hash is stable.
  lemma CollisionIffStable(params: Parameters, check: CheckString, oldMessage: Bytes, newMessage: Bytes, k: nat,
                           sha: Bytes -> Bytes)
    requires FromKeyGen(params) && IsKey(params) && IsCheckString(check)
    ensures Hash(params, GenerateChCollision(params, check, oldMessage, newMessage, k, sha), newMessage, sha)
         == Hash(params, check, oldMessage, sha)
       <==> Stable(params, Hash(params, check, oldMessage, sha))
  {
    hide FromKeyGen, IsKey, HashNumber, GenerateChCollision, Value, ParseHex, LeftAligned, BigEndian;
    CollisionHash(params, check, oldMessage, newMessage, k, sha);
  }

  // A hash number of 32 bytes fills the array, so it is stable. So is any hash that reads as a number below q.
  lemma FullHashIsStable(params: Parameters, check: CheckString, message: Bytes, sha: Bytes -> Bytes)
    requires IsKey(params) && IsCheckString(check)
    requires |BigEndian(HashNumber(params, check, message, sha))| == 32
    ensures Stable(params, Hash(params, check, message, sha))
  {
    hide Value, BigEndian, ParseHex, Pow;
    var n, q := HashNumber(params, check, message, sha), ParseHex(params.Q);
    ValueOfBigEndian(n);
    assert BigEndian(n)[..32] == BigEndian(n);
    assert n < q;
    SmallModulo(n, q);
  }

  lemma SmallModulo(n: nat, q: nat)
    requires n < q
    ensures n % q == n
  {
  }

  lemma SmallHashIsStable(params: Parameters, hash: Bytes)
    requires IsHex(params.Q) && |hash| == 32 && hash[0] != 0 && Value(hash) < ParseHex(params.Q)
    ensures Stable(params, hash)
  {
    hide Value, BigEndian, ParseHex;
    BigEndianOfValue(hash);
    SmallModulo(Value(hash), ParseHex(params.Q));
    assert hash[..32] == hash;
  }

  // When the reduced number fills 32 bytes again, nothing is lost exactly if nothing was reduced.
  lemma FullNumberStable(params: Parameters, hash: Bytes)
    requires IsHex(params.Q) && 0 < ParseHex(params.Q) <= Pow(256, 32) && |hash| == 32
    requires Value(hash) % ParseHex(params.Q) >= Pow(256, 31)
    ensures Stable(params, hash) <==> Value(hash) < ParseHex(params.Q)
  {
    hide Value, BigEndian, ParseHex, Pow;
    var q, v := ParseHex(params.Q), Value(hash);
    FullNumber(v % q);
    if v < q {
      SmallModulo(v, q);
      FullNumberOf(hash);
    }
  }

  // g^k and g^(k + tk * (met - made)) leave the same remainder modulo q.
  predicate SamePower(params: Parameters, made: nat, met: nat, k: nat)
    requires IsKey(params)
  {
    var g, p, q, tk := ParseHex(params.G), ParseHex(params.P), ParseHex(params.Q), ParseHex(params.TK);
    Exp(g, k, p) % q == Exp(g, MovedExponent(q, tk, made, met, k), p) % q
  }

  lemma SameExponentSamePower(params: Parameters, e: nat, k: nat)
    requires FromKeyGen(params) && IsKey(params)
    ensures SamePower(params, e, e, k)
  {
    hide Cong, Pow, ParseHex, FromKeyGen, Exp, MovedExponent;
    var p, q, g, tk := Numbers(params);
    SameExponent(p, q, g, tk, e, k);
  }

  // When the moved hash is copied to the old one.
  lemma MovedHash(params: Parameters, hash: Bytes, made: nat, met: nat, k: nat)
    requires IsKey(params) && |hash| == 32
    ensures var q := ParseHex(params.Q);
            var kept := LeftAligned(BigEndian(Renumbered(params, Value(hash), made, met, k))) == hash;
            && (Stable(params, hash) && SamePower(params, made, met, k) ==> kept)
            && (hash[31] != 0 && q <= Pow(256, 32) ==>
              (kept <==> Stable(params, hash) && SamePower(params, made, met, k)))
  {
    hide Value, BigEndian, LeftAligned, ParseHex, Pow;
    var g, p, q, tk := ParseHex(params.G), ParseHex(params.P), ParseHex(params.Q), ParseHex(params.TK);
    var n, h := Renumbered(params, Value(hash), made, met, k), Value(hash);
    var a, b := Exp(g, k, p), Exp(g, MovedExponent(q, tk, made, met, k), p);
    MovedModulo(h, a, b, q);
    if hash[31] != 0 && q <= Pow(256, 32) {
      LastByte(n, hash);
      LastByte(h % q, hash);
      if n == h || h % q == h {
        SmallModulo(h, q);
      }
    }
  }

  lemma MovedModulo(h: nat, a: nat, b: nat, q: nat)
    requires q > 0
    ensures (h + a - b) % q == h % q <==> a % q == b % q
  {
    hide Cong;
    CongRefl(h, q);
    ModCong(a, q);
    ModCong(b, q);
    if a % q == b % q {
      CongTrans(a, a % q, b, q);
      CongAdd(h, h, a, b, q);
      CongRefl(b, q);
      CongAdd(h + a, h + b, b, b, q);
      CongMod(h + a - b, h, q);
    } else if (h + a - b) % q == h % q {
      ModCong(h + a - b, q);
      ModCong(h, q);
      CongTrans(h + a - b, h % q, h, q);
      CongRefl(b - h, q);
      CongAdd(h + a - b, h, b - h, b - h, q);
      CongMod(a, b, q);
    }
  }

  // A hash whose last byte is not zero is the copy of no number but its own.
  lemma LastByte(n: nat, hash: Bytes)
    requires |hash| == 32 && hash[31] != 0 && n < Pow(256, 32)
    ensures LeftAligned(BigEndian(n)) == hash <==> n == Value(hash) && n >= Pow(256, 31)
  {
    hide Value, BigEndian, Pow;
    if n >= Pow(256, 31) {
      FullNumber(n);
      if n == Value(hash) {
        FullNumberOf(hash);
      }
    } else {
      ShortLength(n, 31);
    }
  }

  // A number of 32 bytes is copied whole.
  lemma FullNumber(n: nat)
    requires Pow(256, 31) <= n < Pow(256, 32)
    ensures Value(LeftAligned(BigEndian(n))) == n
  {
    hide Value, BigEndian, Pow;
    BigEndianLength(n, 31);
    ValueOfBigEndian(n);
    assert BigEndian(n)[..32] == BigEndian(n);
  }

  lemma FullNumberOf(hash: Bytes)
    requires |hash| == 32 && Value(hash) >= Pow(256, 31)
    ensures hash[0] != 0 && LeftAligned(BigEndian(Value(hash))) == hash
  {
    hide Value, BigEndian, Pow;
    if hash[0] == 0 {
      LeadingZero(hash);
    }
    BigEndianOfValue(hash);
    assert hash[..32] == hash;
  }

  // -------------------- chains of updates --------------------

  // The check string after replacing the message by each of `messages` in turn, draw by draw.
  function Chain(params: Parameters, check: CheckString, first: Bytes, messages: seq<Bytes>, draws: seq<nat>,
                 sha: Bytes -> Bytes): (last: CheckString)
    requires IsKey(params) && IsCheckString(check) && |draws| == |messages|
    ensures IsCheckString(last)
  {
    if messages == [] then check
    else
      var n := |messages| - 1;
      var before := Chain(params, check, first, messages[..n], draws[..n], sha);
      GenerateChCollision(params, before, Last(first, messages[..n]), messages[n], draws[n], sha)
  }

  function Last(first: Bytes, messages: seq<Bytes>): Bytes {
    if messages == [] then first else messages[|messages| - 1]
  }

  lemma {:induction false} ChainKeepsHash(params: Parameters, check: CheckString, first: Bytes,
                                          messages: seq<Bytes>, draws: seq<nat>, sha: Bytes -> Bytes)
    requires FromKeyGen(params) && IsKey(params) && IsCheckString(check) && |draws| == |messages|
    requires Stable(params, Hash(params, check, first, sha))
    ensures Hash(params, Chain(params, check, first, messages, draws, sha), Last(first, messages), sha)
         == Hash(params, check, first, sha)
    decreases |messages|
  {
    hide FromKeyGen, IsKey, Hash, GenerateChCollision, Stable;
    if messages != [] {
      var n := |messages| - 1;
      ChainKeepsHash(params, check, first, messages[..n], draws[..n], sha);
      var before := Chain(params, check, first, messages[..n], draws[..n], sha);
      CollisionIffStable(params, before, Last(first, messages[..n]), messages[n], draws[n], sha);
    }
  }

  // The generated check string does not restore the hash.
  predicate Missed(params: Parameters, check: CheckString, oldMessage: Bytes, newMessage: Bytes, k: nat,
                   sha: Bytes -> Bytes)
    requires IsKey(params) && IsCheckString(check)
  {
    Hash(params, GenerateChCollision(params, check, oldMessage, newMessage, k, sha), newMessage, sha)
      != Hash(params, check, oldMessage, sha)
  }

  // A hash number of 31 bytes that the collision misses, for every prime of 256 bits, every unit x, the draw tk = 0 and
  // every digest. The hash reads as 256 * n, which passes q by just over 256^31: modulo q it fills 32 bytes again, but
  // is another number.
  lemma ShortHashIsMissed(p: nat, x: nat, oldMessage: Bytes, newMessage: Bytes, k: nat, sha: Bytes -> Bytes)
    requires Prime(p) && 128 * Pow(256, 31) < p < 256 * Pow(256, 31) && x % p != 0
    ensures var params, check := KeyGen(p, x, 0), ShortCheck(p);
            FromKeyGen(params) && IsCheckString(check) && Missed(params, check, oldMessage, newMessage, k, sha)
  {
    hide HashNumber, Value, Hex, ParseHex, BigEndian, Pow, Stable, Prime;
    var params, check, q, n := KeyGen(p, x, 0), ShortCheck(p), (p - 1) / 2, ShortNumber(p);
    assert Drawn(params, p, x, 0);
    HexRoundTrip(q);
    ShortHashNumber(p, x, oldMessage, sha);
    ShortNumberReads(p);
    FullNumberStable(params, LeftAligned(BigEndian(n)));
    assert !Stable(params, Hash(params, check, oldMessage, sha));
    CollisionIffStable(params, check, oldMessage, newMessage, k, sha);
  }

  // 31 bytes, and 256 * n lies between q + 256^31 and q + 256^31 + 256.
  function ShortNumber(p: nat): nat
    requires p > 2
  {
    PowPositive(256, 30);
    (p - 1) / 2 / 256 + Pow(256, 30) + 1
  }

  function ShortCheck(p: nat): (check: CheckString)
    requires p > 2
    ensures IsCheckString(check)
  {
    HexRoundTrip(ShortNumber(p) + 1); HexRoundTrip(0);
    CheckString(Hex(ShortNumber(p) + 1), Hex(0))
  }

  lemma ShortNumberReads(p: nat)
    requires 128 * Pow(256, 31) < p < 256 * Pow(256, 31)
    ensures var q, v := (p - 1) / 2, Value(LeftAligned(BigEndian(ShortNumber(p))));
            0 < q <= Pow(256, 32) && v >= q && v % q >= Pow(256, 31)
  {
    hide Value, BigEndian, Pow;
    var q, n := (p - 1) / 2, ShortNumber(p);
    PowStep(256, 30); PowStep(256, 31); PowStep(256, 0);
    PowZero(256);
    PowPositive(256, 30);
    ShortBounds(p, Pow(256, 30));
    BigEndianLength(n, 30);
    ValueOfBigEndian(n);
    ValueShifted(BigEndian(n), 1);
    SmallModulo(256 * n - q, q);
    OneTurn(256 * n, q);
  }

  lemma ShortBounds(p: nat, b: nat)
    requires b > 0 && 128 * (256 * b) < p < 256 * (256 * b)
    ensures var q, n := (p - 1) / 2, (p - 1) / 2 / 256 + b + 1;
            && b <= n < 256 * b && n < q < 65536 * b
            && 256 * b <= 256 * n - q < q
  {
    var q := (p - 1) / 2;
    assert 64 * (256 * b) <= q < 128 * (256 * b);
    assert 64 * b <= q / 256 < 128 * b;
  }

  lemma OneTurn(v: int, q: nat)
    requires q > 0
    ensures (v - q) % q == v % q
  {
    hide Cong;
    CongBy(v - q, v, q, -1);
    CongMod(v - q, v, q);
  }

  lemma ShortHashNumber(p: nat, x: nat, message: Bytes, sha: Bytes -> Bytes)
    requires 128 * Pow(256, 31) < p < 256 * Pow(256, 31)
    ensures HashNumber(KeyGen(p, x, 0), ShortCheck(p), message, sha) == ShortNumber(p)
  {
    hide Hex, ParseHex, Value, Pow, HashNumber;
    var g, q, n := Exp(x, 2, p), (p - 1) / 2, ShortNumber(p);
    PowStep(256, 30);
    PowPositive(256, 30);
    ShortBounds(p, Pow(256, 30));
    HexRoundTrip(g); HexRoundTrip(p); HexRoundTrip(q); HexRoundTrip(1); HexRoundTrip(0); HexRoundTrip(n + 1);
    PowZero(g);
    SmallModulo(1, p);
    assert Exp(g, 0, p) == 1;
    PowOne(Value(sha(message + Hex(n + 1))));
    SmallModulo(n, q);
    HashNumberIs(KeyGen(p, x, 0), ShortCheck(p), message, sha, g, p, q, 1, n + 1, 0);
  }

  // Why x must be a unit: with x = 0 the generator is 0, and when k = 0 is drawn a stable hash is missed by every
  // message whose digest is not zero.
  lemma ZeroGeneratorMisses(p: nat, tk: nat, oldMessage: Bytes, newMessage: Bytes, sha: Bytes -> Bytes)
    requires p > 4 && tk > 0 && Value(sha(newMessage + Hex(1))) != 0
    ensures var params, check := KeyGen(p, 0, tk), CheckString(Hex(0), Hex(1));
            && IsCheckString(check) && Stable(params, Hash(params, check, oldMessage, sha))
            && Missed(params, check, oldMessage, newMessage, 0, sha)
  {
    hide Hex, ParseHex, Value, HashNumber, Pow, Exp;
    var params, check, q := KeyGen(p, 0, tk), CheckString(Hex(0), Hex(1)), (p - 1) / 2;
    var e := Value(sha(newMessage + Hex(1)));
    var s := (0 - (e * tk) % q) % q;
    HexRoundTrip(0); HexRoundTrip(1); HexRoundTrip(q); HexRoundTrip(tk); HexRoundTrip(s);
    ZeroHashNumber(p, tk, 0, 1, oldMessage, sha);
    ZeroReadsAsZero();
    ZeroGenerated(p, tk, newMessage, oldMessage, sha);
    ZeroHashNumber(p, tk, 1, s, newMessage, sha);
    assert BigEndian(1) == [1] && BigEndian(0) == [];
    assert LeftAligned([1])[0] == 1;
  }

  // With the generator 0 the hash number is r, if hk or g has a positive exponent.
  lemma ZeroHashNumber(p: nat, tk: nat, r: nat, s: nat, message: Bytes, sha: Bytes -> Bytes)
    requires p > 4 && tk > 0 && r < (p - 1) / 2 && (s > 0 || Value(sha(message + Hex(r))) > 0)
    ensures var check := CheckString(Hex(r), Hex(s));
            IsCheckString(check) && HashNumber(KeyGen(p, 0, tk), check, message, sha) == r
  {
    hide Hex, ParseHex, Value, HashNumber, Exp;
    var params, check, q := KeyGen(p, 0, tk), CheckString(Hex(r), Hex(s)), (p - 1) / 2;
    var e := Value(sha(message + Hex(r)));
    HexRoundTrip(0); HexRoundTrip(r); HexRoundTrip(p); HexRoundTrip(q); HexRoundTrip(s); HexRoundTrip(tk);
    ExpOfZero(2, p); ExpOfZero(tk, p); ExpOfZero(e, p); ExpOfZero(s, p);
    assert Exp(0, e, p) * Exp(0, s, p) == 0;
    SmallModulo(0, p);
    SmallModulo(r, q);
    HashNumberIs(params, check, message, sha, 0, p, q, 0, r, s);
  }

  lemma ZeroGenerated(p: nat, tk: nat, newMessage: Bytes, oldMessage: Bytes, sha: Bytes -> Bytes)
    requires p > 4 && tk > 0 && IsCheckString(CheckString(Hex(0), Hex(1)))
    requires Value(Hash(KeyGen(p, 0, tk), CheckString(Hex(0), Hex(1)), oldMessage, sha)) == 0
    ensures var e, q := Value(sha(newMessage + Hex(1))), (p - 1) / 2;
            GenerateChCollision(KeyGen(p, 0, tk), CheckString(Hex(0), Hex(1)), oldMessage, newMessage, 0, sha)
              == CheckString(Hex(1), Hex((0 - (e * tk) % q) % q))
  {
    hide Hex, ParseHex, Value, Hash, Exp;
    HexRoundTrip(0); HexRoundTrip(p); HexRoundTrip((p - 1) / 2); HexRoundTrip(tk);
    ExpOfZero(2, p); ExpOfZero(0, p);
    SmallModulo(1, (p - 1) / 2);
  }

  lemma ExpOfZero(e: nat, p: nat)
    requires p > 1
    ensures Exp(0, e, p) == if e > 0 then 0 else 1
  {
    SmallModulo(0, p);
    SmallModulo(1, p);
    if e > 0 {
      PowStep(0, e - 1);
    } else {
      PowZero(0);
    }
  }

  lemma ZeroReadsAsZero()
    ensures LeftAligned(BigEndian(0)) == Zeros(32) && Value(Zeros(32)) == 0
  {
    hide Value;
    ValueOfZeros(32);
    var none: Bytes := [];
    assert BigEndian(0) == none && none + Zeros(32) == Zeros(32);
  }
}
