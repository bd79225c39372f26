/** The administrator's TOTP second factor: the one stored row, code checks with replay protection, enrolment.

`otp` gives the six-digit code of a secret and a 30-second counter (section 5.2 of RFC 6238); nothing is
assumed of it. Encryption is kept abstract: a secret opens only under the key it was sealed with. */
module AdminTotp {
  import opened PythonText
  import opened Wrappers

  const SECOND := 1_000_000
  const STEP := 30 * SECOND

  type Otp = (string, int) -> string

  datatype Sealed = Sealed(key: string, secret: string) | Garbage

  datatype Row = Row(sealed: Sealed, confirmedAt: Option<int>, lastUsed: Option<int>)

  function Open(key: string, s: Sealed): Option<string> {
    if s.Sealed? && s.key == key then Some(s.secret) else None
  }

  /** The code as typed, without white space. */
  function Squeeze(code: string): string {
    if code == "" then ""
    else if IsSpace(code[0]) then Squeeze(code[1..])
    else [code[0]] + Squeeze(code[1..])
  }

  predicate SixDigits(code: string) {
    |code| == 6 && forall i :: 0 <= i < 6 ==> '0' <= code[i] <= '9'
  }

  /** The lowest of the three counters around now whose code this is. */
  method MatchingCounter(otp: Otp, secret: string, code: string, now: int) returns (r: Option<int>)
    ensures r == Matching(otp, secret, code, now)
    ensures r.Some? <==> exists c :: now / STEP - 1 <= c <= now / STEP + 1 && otp(secret, c) == code
  {
    var current := now / STEP;
    var counter := current - 1;
    while counter < current + 2
      invariant current - 1 <= counter <= current + 2
      invariant forall c :: current - 1 <= c < counter ==> otp(secret, c) != code
    {
      if otp(secret, counter) == code {
        return Some(counter);
      }
      counter := counter + 1;
    }
    return None;
  }

  function Matching(otp: Otp, secret: string, code: string, now: int): Option<int> {
    var current := now / STEP;
    if otp(secret, current - 1) == code then Some(current - 1)
    else if otp(secret, current) == code then Some(current)
    else if otp(secret, current + 1) == code then Some(current + 1)
    else None
  }

  datatype Verdict = Undecryptable | Refused | Accepted(counter: int)

  /** The verdict on a code. A malformed code is refused before the secret is opened. */
  function Judge(otp: Otp, key: string, row: Row, code: string, now: int): Verdict {
    var squeezed := Squeeze(code);
    if !SixDigits(squeezed) then Refused
    else
      match Open(key, row.sealed)
      case None => Undecryptable
      case Some(secret) =>
        match Matching(otp, secret, squeezed, now)
        case None => Refused
        case Some(counter) =>
          if row.lastUsed.Some? && counter <= row.lastUsed.value then Refused else Accepted(counter)
  }

  /** The row after a verdict. */
  function Stamped(row: Row, v: Verdict, now: int): Row {
    match v
    case Accepted(counter) =>
      row.(lastUsed := Some(counter), confirmedAt := if row.confirmedAt.None? then Some(now) else row.confirmedAt)
    case _ => row
  }

  /** The row an unconfirmed enrolment works on: the old one while it opens, else one with a new secret. */
  function Pending(key: string, row: Option<Row>, newSecret: string): Row {
    if row.Some? && Open(key, row.value.sealed).Some? then row.value
    else Row(Sealed(key, newSecret), None, None)
  }

  predicate Confirmed(row: Option<Row>) {
    row.Some? && row.value.confirmedAt.Some?
  }

  class TotpStore {
    const otp: Otp
    const key: string
    var row: Option<Row>

    constructor (otp: Otp, key: string, row: Option<Row>)
      ensures this.otp == otp && this.key == key && this.row == row
    {
      this.otp := otp;
      this.key := key;
      this.row := row;
    }

    /** None where the program raises, because the secret is confirmed already. */
    method GetOrCreatePending(newSecret: string) returns (secret: Option<string>)
      modifies this
      ensures secret.None? <==> Confirmed(old(row))
      ensures row == if Confirmed(old(row)) then old(row) else Some(Pending(key, old(row), newSecret))
      ensures secret.Some? ==> Open(key, row.value.sealed) == secret
    {
      if row.Some? && row.value.confirmedAt.Some? {
        return None;
      }
      if row.Some? {
        var plain := Open(key, row.value.sealed);
        if plain.Some? {
          return plain;
        }
      }
      if row.None? {
        row := Some(Row(Sealed(key, newSecret), None, None));
      } else {
        row := Some(row.value.(sealed := Sealed(key, newSecret), lastUsed := None));
      }
      return Some(newSecret);
    }

    method VerifyCode(code: string, now: int) returns (v: Verdict)
      requires row.Some?
      modifies this
      ensures v == Judge(otp, key, old(row).value, code, now)
      ensures row == Some(Stamped(old(row).value, v, now))
    {
      var squeezed := Squeeze(code);
      if !SixDigits(squeezed) {
        return Refused;
      }
      var secret := Open(key, row.value.sealed);
      if secret.None? {
        return Undecryptable;
      }
      var counter := MatchingCounter(otp, secret.value, squeezed, now);
      if counter.None? {
        return Refused;
      }
      if row.value.lastUsed.Some? && counter.value <= row.value.lastUsed.value {
        return Refused;
      }
      row := Some(row.value.(lastUsed := counter));
      if row.value.confirmedAt.None? {
        row := Some(row.value.(confirmedAt := Some(now)));
      }
      return Accepted(counter.value);
    }

    method ResetTotp() returns (existed: bool)
      modifies this
      ensures row == None && existed == old(row).Some?
    {
      existed := row.Some?;
      row := None;
    }
  }

  /** A verdict is right: a code is accepted exactly when it is the code of a counter around now, the lowest such,
  above the last one used. */
  lemma JudgeAcceptsIff(otp: Otp, key: string, row: Row, code: string, now: int, counter: int)
    ensures Judge(otp, key, row, code, now) == Accepted(counter) <==>
      && SixDigits(Squeeze(code))
      && row.sealed.Sealed? && row.sealed.key == key
      && now / STEP - 1 <= counter <= now / STEP + 1
      && otp(row.sealed.secret, counter) == Squeeze(code)
      && (forall c :: now / STEP - 1 <= c < counter ==> otp(row.sealed.secret, c) != Squeeze(code))
      && (row.lastUsed.Some? ==> counter > row.lastUsed.value)
  {
    if row.sealed.Sealed? && now / STEP - 1 <= counter <= now / STEP + 1 {
      assert now / STEP - 1 < counter ==> otp(row.sealed.secret, now / STEP - 1) == otp(row.sealed.secret, now / STEP - 1);
    }
  }

  // Between two resets ------------------------------------------------------------------------------

  /** What happens to the row between two resets. A new key is a restart with another SESSION_SECRET. */
  datatype Event =
    | Verifies(code: string, now: int)
    | Enrols(newSecret: string)
    | Restarts(key: string)

  datatype Use = Use(counter: int, at: int)

  datatype State = State(key: string, row: Option<Row>, uses: seq<Use>)

  function Step(otp: Otp, s: State, e: Event): State {
    match e
    case Verifies(code, now) =>
      if s.row.None? then s
      else
        var v := Judge(otp, s.key, s.row.value, code, now);
        s.(row := Some(Stamped(s.row.value, v, now)),
           uses := if v.Accepted? then s.uses + [Use(v.counter, now)] else s.uses)
    case Enrols(newSecret) =>
      if Confirmed(s.row) then s else s.(row := Some(Pending(s.key, s.row, newSecret)))
    case Restarts(key) => s.(key := key)
  }

  function Run(otp: Otp, s: State, events: seq<Event>): State {
    if events == [] then s else Step(otp, Run(otp, s, events[..|events| - 1]), events[|events| - 1])
  }

  /** The row right after a reset. */
  function AfterReset(key: string): State {
    State(key, None, [])
  }

  /** Each accepted counter is near its time, they increase, and the row remembers the last one. */
  ghost predicate UsesOk(s: State) {
    && (forall i :: 0 <= i < |s.uses| ==> NearTime(s.uses[i]))
    && (forall i, j :: 0 <= i < j < |s.uses| ==> s.uses[i].counter < s.uses[j].counter)
    && (if s.uses == [] then s.row.Some? ==> s.row.value.lastUsed == None && s.row.value.confirmedAt == None
        else Confirmed(s.row) && s.row.value.lastUsed == Some(s.uses[|s.uses| - 1].counter))
  }

  ghost predicate NearTime(u: Use) {
    u.at / STEP - 1 <= u.counter <= u.at / STEP + 1
  }

  lemma StepUses(otp: Otp, s: State, e: Event)
    requires UsesOk(s)
    ensures UsesOk(Step(otp, s, e))
  {
  }

  lemma {:induction false} RunUses(otp: Otp, key: string, events: seq<Event>)
    ensures UsesOk(Run(otp, AfterReset(key), events))
  {
    if events != [] {
      hide UsesOk, Step;
      var before := events[..|events| - 1];
      RunUses(otp, key, before);
      StepUses(otp, Run(otp, AfterReset(key), before), events[|events| - 1]);
    }
  }

  /** MAIN RESULT. Between two resets the accepted counters strictly increase, over any mix of codes, enrolments
  and restarts. So no counter is accepted twice. */
  lemma {:induction false} CountersIncrease(otp: Otp, key: string, events: seq<Event>, i: nat, j: nat)
    requires i < j < |Run(otp, AfterReset(key), events).uses|
    ensures Run(otp, AfterReset(key), events).uses[i].counter < Run(otp, AfterReset(key), events).uses[j].counter
  {
    RunUses(otp, key, events);
  }

  /** MAIN RESULT. Of the codes accepted one after the other from time t0 to t1, there are at most
  floor(t1/30) - floor(t0/30) + 3. */
  lemma {:induction false} UsesBounded(otp: Otp, key: string, events: seq<Event>, i: nat, j: nat, t0: int, t1: int)
    requires t0 <= t1
    requires i <= j <= |Run(otp, AfterReset(key), events).uses|
    requires forall k :: i <= k < j ==> t0 <= Run(otp, AfterReset(key), events).uses[k].at <= t1
    ensures j - i <= t1 / STEP - t0 / STEP + 3
  {
    RunUses(otp, key, events);
    var uses := Run(otp, AfterReset(key), events).uses;
    if i < j {
      CounterNear(uses[i], t0, t1);
      CounterNear(uses[j - 1], t0, t1);
      Spread(uses, i, j);
    }
  }

  lemma CounterNear(u: Use, t0: int, t1: int)
    requires NearTime(u) && t0 <= u.at <= t1
    ensures t0 / STEP - 1 <= u.counter <= t1 / STEP + 1
  {
  }

  lemma {:induction false} Spread(uses: seq<Use>, i: nat, j: nat)
    requires i < j <= |uses|
    requires forall a, b :: 0 <= a < b < |uses| ==> uses[a].counter < uses[b].counter
    ensures uses[j - 1].counter - uses[i].counter >= j - 1 - i
    decreases j
  {
    if i < j - 1 {
      Spread(uses, i, j - 1);
    }
  }
}
