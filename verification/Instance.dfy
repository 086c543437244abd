/**
 Process instance ids, `"{pid}:{timestamp}"`, and reading the PID back out of one.
 */
module Instance {

  datatype Option<T> = None | Some(value: T)

  /** One process: its PID, and the time at which it first asked for its id. */
  datatype Proc = Proc(pid: nat, stamp: nat)

  const U32_LIMIT := 0x1_0000_0000
  const PID_LIMIT := 0x8000_0000

  predicate IsDigit(c: char) { '0' <= c <= '9' }

  function Digit(n: nat): char
    requires n < 10
  {
    '0' + (n as char)
  }

  function Decimal(n: nat): string {
    if n < 10 then [Digit(n)] else Decimal(n / 10) + [Digit(n % 10)]
  }

  function InstanceId(p: Proc): string {
    Decimal(p.pid) + ":" + Decimal(p.stamp)
  }

  /** The part before the first colon. */
  function BeforeColon(s: string): string {
    if s == "" || s[0] == ':' then "" else [s[0]] + BeforeColon(s[1..])
  }

  predicate AllDigits(s: string) {
    forall i :: 0 <= i < |s| ==> IsDigit(s[i])
  }

  function Value(s: string): nat
    requires AllDigits(s)
  {
    if s == "" then 0
    else
      assert IsDigit(s[|s| - 1]);
      10 * Value(s[..|s| - 1]) + (s[|s| - 1] as int - '0' as int)
  }

  /** `str::parse::<u32>`: an optional plus sign, then digits whose value fits. */
  function ParseU32(s: string): Option<nat> {
    var d := if s != "" && s[0] == '+' then s[1..] else s;
    if d != "" && AllDigits(d) && Value(d) < U32_LIMIT then Some(Value(d)) else None
  }

  function PidOf(instance: string): Option<nat> {
    ParseU32(BeforeColon(instance))
  }

  // ---- Round trip

  lemma {:induction false} DecimalDigits(n: nat)
    ensures Decimal(n) != "" && AllDigits(Decimal(n)) && Value(Decimal(n)) == n
  {
    var d := Decimal(n);
    if n >= 10 {
      DecimalDigits(n / 10);
      assert d[..|d| - 1] == Decimal(n / 10);
    } else {
      assert d[..0] == "";
    }
  }

  lemma {:induction false} BeforeColonOf(a: string, b: string)
    requires forall i :: 0 <= i < |a| ==> a[i] != ':'
    ensures BeforeColon(a + ":" + b) == a
  {
    var s := a + ":" + b;
    if a == "" {
      assert s[0] == ':';
    } else {
      assert s[0] == a[0] && s[1..] == a[1..] + ":" + b;
      BeforeColonOf(a[1..], b);
    }
  }

  /** The PID read from an instance id is the PID of the process that made it. */
  lemma PidRoundTrip(p: Proc)
    ensures PidOf(InstanceId(p)) == if p.pid < 0x1_0000_0000 then Some(p.pid) else None
  {
    DecimalDigits(p.pid);
    BeforeColonOf(Decimal(p.pid), Decimal(p.stamp));
  }

  /** Distinct processes have distinct instance ids. */
  lemma InstanceInjective(p: Proc, q: Proc)
    requires InstanceId(p) == InstanceId(q)
    ensures p == q
  {
    DecimalDigits(p.pid);
    DecimalDigits(q.pid);
    DecimalDigits(p.stamp);
    DecimalDigits(q.stamp);
    BeforeColonOf(Decimal(p.pid), Decimal(p.stamp));
    BeforeColonOf(Decimal(q.pid), Decimal(q.stamp));
    var n := |Decimal(p.pid)| + 1;
    assert InstanceId(p)[n..] == Decimal(p.stamp) && InstanceId(q)[n..] == Decimal(q.stamp);
  }

  /** A character that is no digit, other than a leading plus, makes the PID unreadable; so does nothing at all. */
  lemma NotANumber(head: string, tail: string, k: nat)
    requires forall i :: 0 <= i < |head| ==> head[i] != ':'
    requires head == "" || (k < |head| && !('0' <= head[k] <= '9') && (k == 0 ==> head[0] != '+'))
    ensures PidOf(head + ":" + tail) == None
  {
    BeforeColonOf(head, tail);
    if head != "" {
      var d := if head[0] == '+' then head[1..] else head;
      if head[0] == '+' { assert d[k - 1] == head[k]; }
    }
  }

  /** The text of an id, by example. */
  lemma InstanceText()
    ensures InstanceId(Proc(17, 5)) == "17:5" && PidOf("17:5") == Some(17) && PidOf("+17:5") == Some(17)
  {
    PidRoundTrip(Proc(17, 5));
    assert Decimal(17) == Decimal(1) + "7";
    assert BeforeColon("+17:5") == ['+'] + BeforeColon("17:5");
    BeforeColonOf("17", "5");
    assert "17" + ":" + "5" == "17:5";
    DecimalDigits(17);
  }

  /** `is_pid_alive`, given the PIDs the operating system answers for. */
  predicate PidAlive(pid: nat, answering: set<nat>) {
    0 < pid < PID_LIMIT && pid in answering
  }
}
