/** The idempotency key "service:node:round" and when two keys can be equal. */
module Keys {
  import opened Decimal

  /** `_build_idempotency_key`. */
  function Key(service: string, node: string, round: int): string {
    service + ":" + node + ":" + IntText(round)
  }

  /** Service ids are UUIDs: hexadecimal digits and dashes, so no colon. */
  predicate PlainId(service: string) {
    ':' !in service
  }

  /** The text before the first colon: the service a key belongs to. */
  function ServiceOf(key: string): string {
    if key == [] || key[0] == ':' then [] else [key[0]] + ServiceOf(key[1..])
  }

  lemma {:induction false} ServiceOfPrefix(service: string, rest: string)
    requires PlainId(service)
    ensures ServiceOf(service + ":" + rest) == service
  {
    var t := service + ":" + rest;
    if service == [] {
      assert t[0] == ':';
    } else {
      assert t[0] == service[0];
      assert t[1..] == service[1..] + ":" + rest;
      ServiceOfPrefix(service[1..], rest);
    }
  }

  lemma KeyNamesItsService(service: string, node: string, round: int)
    requires PlainId(service)
    ensures ServiceOf(Key(service, node, round)) == service
  {
    assert Key(service, node, round) == service + ":" + (node + ":" + IntText(round));
    ServiceOfPrefix(service, node + ":" + IntText(round));
  }

  /** |a| is where the last colon of a:b is, when b has none. */
  lemma LastColon(a: string, b: string)
    requires ':' !in b
    ensures var t := a + ":" + b;
      && t[|a|] == ':' && t[..|a|] == a && t[|a| + 1..] == b
      && forall k :: |a| < k < |t| ==> t[k] != ':'
  {
    var t := a + ":" + b;
    assert t[|a| + 1..] == b;
    assert forall k :: |a| < k < |t| ==> t[k] == b[k - |a| - 1];
  }

  /** So a text splits at its last colon in one way only. */
  lemma LastColonSplits(a: string, b: string, c: string, d: string)
    requires ':' !in b && ':' !in d && a + ":" + b == c + ":" + d
    ensures a == c && b == d
  {
    LastColon(a, b);
    LastColon(c, d);
    assert |a| == |c|;
  }

  /** For any ids at all, two keys are equal exactly when the rounds are and the
      texts before the last colon are. */
  lemma KeysEqualIff(s1: string, n1: string, r1: int, s2: string, n2: string, r2: int)
    ensures Key(s1, n1, r1) == Key(s2, n2, r2) <==> s1 + ":" + n1 == s2 + ":" + n2 && r1 == r2
  {
    if Key(s1, n1, r1) == Key(s2, n2, r2) {
      assert ':' !in IntText(r1) && ':' !in IntText(r2);
      LastColonSplits(s1 + ":" + n1, IntText(r1), s2 + ":" + n2, IntText(r2));
      IntTextInjective(r1, r2);
    }
  }

  /** So they are equal exactly when service, node and round are.  The node id
      may contain colons; the service id may not. */
  lemma KeyInjective(s1: string, n1: string, r1: int, s2: string, n2: string, r2: int)
    requires PlainId(s1) && PlainId(s2)
    ensures Key(s1, n1, r1) == Key(s2, n2, r2) <==> s1 == s2 && n1 == n2 && r1 == r2
  {
    if Key(s1, n1, r1) == Key(s2, n2, r2) {
      KeysEqualIff(s1, n1, r1, s2, n2, r2);
      KeyNamesItsService(s1, n1, r1);
      KeyNamesItsService(s2, n2, r2);
      assert n1 == (s1 + ":" + n1)[|s1| + 1..];
      assert n2 == (s2 + ":" + n2)[|s2| + 1..];
    }
  }

  /** If a service id had a colon, different votes could share a key. */
  lemma ColonInServiceCollides(a: string, b: string, c: string, round: int)
    ensures Key(a + ":" + b, c, round) == Key(a, b + ":" + c, round)
  {
    assert (a + ":" + b) + ":" + c == a + ":" + (b + ":" + c);
    KeysEqualIff(a + ":" + b, c, round, a, b + ":" + c, round);
  }
}
