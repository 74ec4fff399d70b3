/** Ephemeral Git tokens (git_token.go): `expiry_nonce_signature`, where the signature is the hex
    of an HMAC over the expiry, the nonce and the trimmed peer id. The HMAC is a parameter. */
module GitToken {
  import opened Text
  import opened Wrappers

  /** hmac(secret, message): any function; the theorems say where it must not collide. */
  type Mac = (string, string) -> seq<byte>

  /** The two messages do not collide under the secret. */
  predicate NoCollision(mac: Mac, secret: string, m1: string, m2: string) {
    mac(secret, m1) == mac(secret, m2) ==> m1 == m2
  }

  function SignedText(expiry: int, nonce: string, cleanPeer: string): string {
    "git:" + FormatInt(expiry) + ":" + nonce + ":" + cleanPeer
  }

  function SignedText2(expiry: int, cleanPeer: string): string {
    "git:" + FormatInt(expiry) + ":" + cleanPeer
  }

  /** The 8 random nonce bytes are a parameter; `expiry` is the expiry in Unix seconds. */
  function Generate(mac: Mac, secret: string, peer: string, expiry: int, nonce: seq<byte>): string {
    var sig := Hex(mac(secret, SignedText(expiry, Hex(nonce), TrimSpace(peer))));
    FormatInt(expiry) + "_" + Hex(nonce) + "_" + sig
  }

  /** `now` is the clock reading in Unix seconds. */
  predicate Validate(mac: Mac, secret: string, peer: string, token: string, now: int) {
    if secret == "" || peer == "" || token == "" then false
    else
      var cleanPeer := TrimSpace(peer);
      var parts := Split(token, '_');
      if |parts| == 3 then
        match ParseInt(parts[0])
        case None => false
        case Some(expiry) =>
          now <= expiry && parts[2] == Hex(mac(secret, SignedText(expiry, parts[1], cleanPeer)))
      else if |parts| == 2 then
        match ParseInt(parts[0])
        case None => false
        case Some(expiry) =>
          now <= expiry && parts[1] == Hex(mac(secret, SignedText2(expiry, cleanPeer)))
      else false
  }

  lemma NoSeparator(n: int, bs: seq<byte>)
    ensures '_' !in FormatInt(n) && '_' !in Hex(bs)
  {}

  /** A printed token splits back into exactly its three fields. */
  lemma TokenFields(mac: Mac, secret: string, peer: string, expiry: int, nonce: seq<byte>)
    ensures var sig := mac(secret, SignedText(expiry, Hex(nonce), TrimSpace(peer)));
            Split(Generate(mac, secret, peer, expiry, nonce), '_') == [FormatInt(expiry), Hex(nonce), Hex(sig)]
  {
    var sig := mac(secret, SignedText(expiry, Hex(nonce), TrimSpace(peer)));
    NoSeparator(expiry, nonce);
    NoSeparator(expiry, sig);
    SplitThree(FormatInt(expiry), Hex(nonce), Hex(sig), '_');
  }

  /** What validating a printed token comes down to, for any peer at any time. */
  lemma ValidateGenerated(mac: Mac, secret: string, peer: string, expiry: int, nonce: seq<byte>,
                          peer': string, now: int)
    requires secret != "" && IsInt64(expiry)
    ensures var text := SignedText(expiry, Hex(nonce), TrimSpace(peer));
            var text' := SignedText(expiry, Hex(nonce), TrimSpace(peer'));
            Validate(mac, secret, peer', Generate(mac, secret, peer, expiry, nonce), now)
            <==> peer' != "" && now <= expiry && Hex(mac(secret, text)) == Hex(mac(secret, text'))
  {
    TokenFields(mac, secret, peer, expiry, nonce);
    ParseFormat(expiry);
  }

  /** Round trip: an unexpired token is accepted for the peer it was issued to, whatever the HMAC. */
  lemma TokenRoundTrip(mac: Mac, secret: string, peer: string, expiry: int, nonce: seq<byte>, now: int)
    requires secret != "" && peer != "" && IsInt64(expiry) && now <= expiry
    ensures Validate(mac, secret, peer, Generate(mac, secret, peer, expiry, nonce), now)
  {
    ValidateGenerated(mac, secret, peer, expiry, nonce, peer, now);
  }

  /** Unless the HMAC collides on the texts signed for the two peers, a token is good for exactly one peer
      (up to outer white space) and exactly until its expiry. */
  lemma TokenBindsPeer(mac: Mac, secret: string, peer: string, expiry: int, nonce: seq<byte>,
                       peer': string, now: int)
    requires secret != "" && IsInt64(expiry)
    ensures var text := SignedText(expiry, Hex(nonce), TrimSpace(peer));
            var text' := SignedText(expiry, Hex(nonce), TrimSpace(peer'));
            NoCollision(mac, secret, text, text') ==>
              (Validate(mac, secret, peer', Generate(mac, secret, peer, expiry, nonce), now)
               <==> peer' != "" && now <= expiry && TrimSpace(peer') == TrimSpace(peer))
  {
    ValidateGenerated(mac, secret, peer, expiry, nonce, peer', now);
    var head := "git:" + FormatInt(expiry) + ":" + Hex(nonce) + ":";
    var text := SignedText(expiry, Hex(nonce), TrimSpace(peer));
    var text' := SignedText(expiry, Hex(nonce), TrimSpace(peer'));
    if NoCollision(mac, secret, text, text') && Hex(mac(secret, text)) == Hex(mac(secret, text')) {
      HexInjective(mac(secret, text), mac(secret, text'));
      assert text == head + TrimSpace(peer) && text' == head + TrimSpace(peer');
      assert text[|head|..] == TrimSpace(peer) && text'[|head|..] == TrimSpace(peer');
    }
  }

  // ------------------------------------------------ which tokens are accepted

  /** `token` is the expiry text `e`, a nonce unless it is a legacy token, and the signature over both and
      the trimmed peer, with underscores in between. */
  predicate SignedBy(mac: Mac, secret: string, peer: string, token: string,
                     e: string, nonce: Option<string>, expiry: int)
  {
    if nonce.Some? then
      && '_' !in nonce.value
      && token == e + "_" + nonce.value + "_" +
           Hex(mac(secret, "git:" + FormatInt(expiry) + ":" + nonce.value + ":" + TrimSpace(peer)))
    else token == e + "_" + Hex(mac(secret, "git:" + FormatInt(expiry) + ":" + TrimSpace(peer)))
  }

  ghost predicate Genuine(mac: Mac, secret: string, peer: string, token: string, now: int) {
    exists e, nonce, expiry ::
      Spells(e, expiry) && now <= expiry && SignedBy(mac, secret, peer, token, e, nonce, expiry)
  }

  lemma SpellingHasNoSeparator(s: string, n: int)
    requires Spells(s, n)
    ensures '_' !in s
  {
    var sign, zeros :| SignOf(sign, n) && IsZeros(zeros) && s == sign + (zeros + Digits(Abs(n)));
    assert forall i :: 0 <= i < |Digits(Abs(n))| ==> '0' <= Digits(Abs(n))[i] <= '9';
  }

  lemma NoncedIsValid(mac: Mac, secret: string, peer: string, token: string, now: int,
                      e: string, nonce: string, expiry: int)
    requires secret != "" && peer != "" && ParseInt(e) == Some(expiry) && now <= expiry && '_' !in e
    requires SignedBy(mac, secret, peer, token, e, Some(nonce), expiry)
    ensures Validate(mac, secret, peer, token, now)
  {
    var text := SignedText(expiry, nonce, TrimSpace(peer));
    NoSeparator(expiry, mac(secret, text));
    SplitThree(e, nonce, Hex(mac(secret, text)), '_');
  }

  lemma LegacyIsValid(mac: Mac, secret: string, peer: string, token: string, now: int, e: string, expiry: int)
    requires secret != "" && peer != "" && ParseInt(e) == Some(expiry) && now <= expiry && '_' !in e
    requires SignedBy(mac, secret, peer, token, e, None, expiry)
    ensures Validate(mac, secret, peer, token, now)
  {
    var text := SignedText2(expiry, TrimSpace(peer));
    NoSeparator(expiry, mac(secret, text));
    SplitTwo(e, Hex(mac(secret, text)), '_');
  }

  lemma ValidIsGenuine(mac: Mac, secret: string, peer: string, token: string, now: int)
    requires Validate(mac, secret, peer, token, now)
    ensures secret != "" && peer != "" && Genuine(mac, secret, peer, token, now)
  {
    var parts := Split(token, '_');
    JoinSplit(token, '_');
    var e, expiry := parts[0], ParseInt(parts[0]).value;
    ParseIntSpells(e, expiry);
    if |parts| == 3 {
      assert parts == [parts[0], parts[1], parts[2]];
      JoinThree(parts[0], parts[1], parts[2], '_');
      assert SignedBy(mac, secret, peer, token, e, Some(parts[1]), expiry);
    } else {
      assert parts == [parts[0], parts[1]];
      JoinTwo(parts[0], parts[1], '_');
      assert SignedBy(mac, secret, peer, token, e, None, expiry);
    }
  }

  /** Exactly the genuine, unexpired tokens are accepted, whoever made them. */
  lemma OnlyGenuineTokens(mac: Mac, secret: string, peer: string, token: string, now: int)
    ensures Validate(mac, secret, peer, token, now)
            <==> secret != "" && peer != "" && Genuine(mac, secret, peer, token, now)
  {
    if Validate(mac, secret, peer, token, now) {
      ValidIsGenuine(mac, secret, peer, token, now);
    }
    if secret != "" && peer != "" && Genuine(mac, secret, peer, token, now) {
      var e, nonce, expiry :|
        Spells(e, expiry) && now <= expiry && SignedBy(mac, secret, peer, token, e, nonce, expiry);
      SpellingHasNoSeparator(e, expiry);
      ParseIntSpells(e, expiry);
      if nonce.Some? {
        NoncedIsValid(mac, secret, peer, token, now, e, nonce.value, expiry);
      } else {
        LegacyIsValid(mac, secret, peer, token, now, e, expiry);
      }
    }
  }
}
