/** The alert delivery row and its intent keys. */
module AlertRows {
  import opened Basics

  datatype Status = Pending | Sending | Sent | Retrying | Failed

  /** Row decision; Blank stands for both the empty string and NULL. */
  datatype RowDecision = Blank | Deliver | UnknownIntent | OtherDecision(name: string)

  datatype Row = Row(
    id: nat, alert: nat, channel: nat, key: string, decision: RowDecision, status: Status,
    attempt: Option<nat>, lease: Option<int>, count: int, nextRetry: Option<int>, sentAt: Option<int>)

  type Table = map<nat, Row>

  /** The durable routing decision of an alert; Undecided is the historical NULL. */
  datatype Decision = Undecided | PendingDecision | Direct | Suppressed | Escalated | NoChannel | Unknown

  // -------------------------------------------------------------------- keys

  function Digit(d: nat): char
    requires d < 10
  {
    ['0', '1', '2', '3', '4', '5', '6', '7', '8', '9'][d]
  }

  /** Decimal notation, as %d prints it. */
  function Digits(n: nat): string {
    if n < 10 then [Digit(n)] else Digits(n / 10) + [Digit(n % 10)]
  }

  function DirectKey(alert: nat, channel: nat): string { Digits(alert) + ":" + Digits(channel) }

  function EscalationKey(alert: nat, event: nat, channel: nat): string {
    Digits(alert) + ":" + Digits(event) + ":" + Digits(channel)
  }

  function DigitValue(c: char): nat { if '0' <= c <= '9' then c as nat - '0' as nat else 0 }

  function Value(s: string): nat {
    if s == [] then 0 else 10 * Value(s[..|s| - 1]) + DigitValue(s[|s| - 1])
  }

  lemma {:induction false} DigitsReadBack(n: nat)
    ensures Value(Digits(n)) == n && Digits(n) != [] && ':' !in Digits(n)
  {
    if n >= 10 {
      DigitsReadBack(n / 10);
      assert Digits(n)[..|Digits(n)| - 1] == Digits(n / 10);
    } else {
      assert Digits(n)[..0] == [];
    }
  }

  /** The text after the first colon. */
  function AfterColon(s: string): string {
    if s == [] then [] else if s[0] == ':' then s[1..] else AfterColon(s[1..])
  }

  lemma {:induction false} AfterColonOf(p: string, q: string)
    requires ':' !in p
    ensures AfterColon(p + ":" + q) == q
  {
    if p == [] {
      assert p + ":" + q == ":" + q;
    } else {
      AfterColonOf(p[1..], q);
      assert (p + ":" + q)[1..] == p[1..] + ":" + q;
    }
  }

  lemma FirstColonUnique(p: string, q: string, r: string, s: string)
    requires ':' !in p && ':' !in r && p + ":" + q == r + ":" + s
    ensures p == r && q == s
  {
    AfterColonOf(p, q);
    AfterColonOf(r, s);
    assert p == (p + ":" + q)[..|p|];
    assert r == (r + ":" + s)[..|r|];
  }

  lemma DirectKeysInjective(a: nat, i: nat, b: nat, j: nat)
    requires DirectKey(a, i) == DirectKey(b, j)
    ensures a == b && i == j
  {
    DigitsReadBack(a); DigitsReadBack(i); DigitsReadBack(b); DigitsReadBack(j);
    FirstColonUnique(Digits(a), Digits(i), Digits(b), Digits(j));
  }

  lemma EscalationKeyNests(a: nat, e: nat, i: nat)
    ensures EscalationKey(a, e, i) == Digits(a) + ":" + DirectKey(e, i)
  {
    assert (Digits(a) + ":") + (Digits(e) + ":" + Digits(i)) == Digits(a) + ":" + Digits(e) + ":" + Digits(i);
  }

  lemma EscalationKeysInjective(a: nat, e: nat, i: nat, b: nat, f: nat, j: nat)
    requires EscalationKey(a, e, i) == EscalationKey(b, f, j)
    ensures a == b && e == f && i == j
  {
    DigitsReadBack(a); DigitsReadBack(b);
    EscalationKeyNests(a, e, i);
    EscalationKeyNests(b, f, j);
    FirstColonUnique(Digits(a), DirectKey(e, i), Digits(b), DirectKey(f, j));
    DirectKeysInjective(e, i, f, j);
  }

  /** A direct intent never shares its key with an escalation intent. */
  lemma KeysNeverCollide(a: nat, i: nat, b: nat, f: nat, j: nat)
    ensures DirectKey(a, i) != EscalationKey(b, f, j)
  {
    DigitsReadBack(a); DigitsReadBack(i); DigitsReadBack(b);
    EscalationKeyNests(b, f, j);
    AfterColonOf(Digits(a), Digits(i));
    AfterColonOf(Digits(b), DirectKey(f, j));
    assert DirectKey(f, j)[|Digits(f)|] == ':';
    assert ':' in AfterColon(EscalationKey(b, f, j)) && ':' !in AfterColon(DirectKey(a, i));
  }

  predicate IsBlank(key: string) { forall c :: c in key ==> c == ' ' }

  lemma KeysNotBlank(a: nat, e: nat, i: nat)
    ensures !IsBlank(DirectKey(a, i)) && !IsBlank(EscalationKey(a, e, i))
  {
    assert DirectKey(a, i)[|Digits(a)|] == ':';
    assert EscalationKey(a, e, i)[|Digits(a)|] == ':';
    assert ':' in DirectKey(a, i) && ':' in EscalationKey(a, e, i);
  }
}
