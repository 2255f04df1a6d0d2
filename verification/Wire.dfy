/** How a fencing token and a lease duration travel from an agent through the HTTP handlers to the store. */
module Wire {
  import opened Prelude
  import opened Durations

  const TWO63 := 0x8000_0000_0000_0000
  const TWO64 := 0x1_0000_0000_0000_0000

  type Uint64 = x: int | 0 <= x < TWO64

  /** Go's conversion `int64(x)`. */
  function AsInt64(x: Uint64): (y: int)
    ensures -TWO63 <= y < TWO63 && (y == x || y == x - TWO64)
  {
    if x < TWO63 then x else x - TWO64
  }

  // ---------- decimal tokens ----------

  predicate IsDigit(c: char) {
    '0' <= c <= '9'
  }

  function Digit(d: int): char
    requires 0 <= d < 10
  {
    ('0' as int + d) as char
  }

  /** Sprintf("%d", n) for a non-negative number. */
  function Decimal(n: nat): string {
    if n < 10 then [Digit(n)] else Decimal(n / 10) + [Digit(n % 10)]
  }

  /** The value of a string of digits. */
  function DigitsValue(s: string): nat
    requires forall i :: 0 <= i < |s| ==> IsDigit(s[i])
  {
    if s == [] then 0
    else
      assert IsDigit(s[|s| - 1]);
      DigitsValue(s[..|s| - 1]) * 10 + (s[|s| - 1] as int - '0' as int)
  }

  /** ParseUint(s, 10, 64): digits only, at least one, and within 64 bits. */
  function ParseUint(s: string): Option<Uint64> {
    if s == "" || exists i :: 0 <= i < |s| && !IsDigit(s[i]) then None
    else if DigitsValue(s) >= TWO64 then None
    else Some(DigitsValue(s))
  }

  lemma {:induction false} DecimalValue(n: nat)
    ensures Decimal(n) != ""
    ensures forall i :: 0 <= i < |Decimal(n)| ==> IsDigit(Decimal(n)[i])
    ensures DigitsValue(Decimal(n)) == n
  {
    if n < 10 {
      assert Decimal(n)[..0] == "";
    } else {
      DecimalValue(n / 10);
      assert Decimal(n)[..|Decimal(n)| - 1] == Decimal(n / 10);
    }
  }

  // ---------- finish ----------

  /** The agent sends its token in a header, and no header at all for a token that is not positive. */
  function FinishHeader(token: int): string {
    if token > 0 then Decimal(token) else ""
  }

  /** The handler reads a missing or malformed header as token zero. */
  function FinishToken(header: string): Uint64 {
    if header == "" then 0 else match ParseUint(header) case Some(v) => v case None => 0
  }

  // ---------- heartbeat ----------

  predicate IsSpace(c: char) {
    c == ' ' || '\t' <= c <= '\r' || c == '\U{85}' || c == '\U{A0}'
  }

  function TrimLeft(s: string): string {
    if s != "" && IsSpace(s[0]) then TrimLeft(s[1..]) else s
  }

  function TrimRight(s: string): string {
    if s != "" && IsSpace(s[|s| - 1]) then TrimRight(s[..|s| - 1]) else s
  }

  ghost predicate AllSpace(s: string) {
    forall i :: 0 <= i < |s| ==> IsSpace(s[i])
  }

  /** Trimming takes away white space at both ends and nothing else. */
  lemma {:induction false} TrimRightSpec(s: string) returns (right: string)
    ensures s == TrimRight(s) + right && AllSpace(right)
    ensures TrimRight(s) != "" ==> !IsSpace(TrimRight(s)[|TrimRight(s)| - 1])
  {
    if s != "" && IsSpace(s[|s| - 1]) {
      right := TrimRightSpec(s[..|s| - 1]);
      right := right + [s[|s| - 1]];
    } else {
      right := "";
    }
  }

  lemma {:induction false} TrimLeftSpec(s: string) returns (left: string)
    ensures s == left + TrimLeft(s) && AllSpace(left)
    ensures TrimLeft(s) != "" ==> !IsSpace(TrimLeft(s)[0])
  {
    if s != "" && IsSpace(s[0]) {
      left := TrimLeftSpec(s[1..]);
      left := [s[0]] + left;
    } else {
      left := "";
    }
  }

  lemma BlankIsTrimmed(s: string)
    ensures TrimLeft(TrimRight(s)) == "" <==> AllSpace(s)
  {
    var right := TrimRightSpec(s);
    var left := TrimLeftSpec(TrimRight(s));
    var mid := TrimLeft(TrimRight(s));
    assert s == left + mid + right;
    if mid != "" {
      assert s[|left|] == mid[0];
    }
  }

  /** The handler prefers `lease_version`, then the trimmed nonce, then the header; zero is refused. */
  function HeartbeatToken(leaseVersion: int, nonce: string, header: string): (r: Option<Uint64>)
    requires leaseVersion < TWO63
    ensures r.Some? ==> r.value != 0
  {
    var text := TrimLeft(TrimRight(nonce));
    var token :=
      if leaseVersion > 0 then leaseVersion else FinishToken(if text == "" then header else text);
    if token == 0 then None else Some(token)
  }

  /** Trimming leaves a decimal number alone. */
  lemma DecimalHasNoSpace(n: nat)
    ensures TrimLeft(TrimRight(Decimal(n))) == Decimal(n) != ""
  {
    DecimalValue(n);
    assert IsDigit(Decimal(n)[|Decimal(n)| - 1]) && IsDigit(Decimal(n)[0]);
  }

  /**
   A token granted by the store reaches it again unchanged: through the heartbeat body whatever
   the nonce and header say, or without it through the nonce and, failing that, the header; through
   the finish header after formatting and parsing; and through the integer conversion on the way.
   */
  lemma TokenSurvivesTheWire(token: int, nonce: string, header: string)
    requires 0 < token < TWO63
    ensures HeartbeatToken(token, nonce, header) == Some(token)
    ensures HeartbeatToken(0, FinishHeader(token), header) == Some(token)
    ensures HeartbeatToken(0, "", FinishHeader(token)) == Some(token)
    ensures FinishToken(FinishHeader(token)) == token
    ensures AsInt64(FinishToken(FinishHeader(token))) == token
  {
    DecimalValue(token);
    DecimalHasNoSpace(token);
  }

  /** A grant that carries no token is reported without a header. */
  lemma NoTokenNoHeader(token: int)
    ensures FinishHeader(token) == "" <==> token <= 0
  {
    if token > 0 {
      DecimalValue(token);
    }
  }

  /** Text denotes a token if it is a decimal number below 2^64. */
  ghost predicate Denotes(s: string, token: int) {
    s != "" && (forall i :: 0 <= i < |s| ==> IsDigit(s[i])) && DigitsValue(s) == token < TWO64
  }

  /**
   What the handlers make of anything else: a finish without a readable header counts as token zero;
   a heartbeat without a version is refused unless its nonce, or its header if the nonce is blank,
   is a readable token other than zero.
   */
  lemma UnreadableTokens(nonce: string, header: string, version: int)
    requires version <= 0
    ensures FinishToken(header) != 0 ==> Denotes(header, FinishToken(header))
    ensures (forall token :: !Denotes(header, token)) ==> FinishToken(header) == 0
    ensures AllSpace(nonce) && FinishToken(header) == 0 ==> HeartbeatToken(version, nonce, header).None?
    ensures AllSpace(nonce) && FinishToken(header) != 0 ==>
              HeartbeatToken(version, nonce, header) == Some(FinishToken(header))
    ensures !AllSpace(nonce) ==> HeartbeatToken(version, nonce, header) == HeartbeatToken(version, nonce, "")
  {
    BlankIsTrimmed(nonce);
    if FinishToken(header) != 0 {
      assert Denotes(header, FinishToken(header));
    }
  }

  // ---------- durations ----------

  /** Requests outside 1..3600 seconds get the default of 15. */
  function TtlOrDefault(sec: int): Duration {
    if sec <= 0 || sec > 3600 then 15 * SECOND else sec * SECOND
  }

  /** The lease length the store applies when an agent asks for `ttl`. */
  function Applied(ttl: Duration): Duration {
    LeaseLength(TtlOrDefault(WholeSeconds(ttl)))
  }

  /** A request of one second up to an hour gets its whole seconds, any other gets fifteen. */
  lemma AppliedLease(ttl: Duration)
    ensures if SECOND <= ttl < 3601 * SECOND then
              Applied(ttl) % SECOND == 0 && Applied(ttl) <= ttl < Applied(ttl) + SECOND
            else
              Applied(ttl) == 15 * SECOND
  {
    var sec := WholeSeconds(ttl);
    if ttl < SECOND {
      assert sec <= 0;
    } else if ttl < 3601 * SECOND {
      assert 1 <= sec <= 3600;
      assert WholeSeconds(sec * SECOND) == sec;
    } else {
      assert sec > 3600;
    }
    assert WholeSeconds(15 * SECOND) == 15;
  }
}
