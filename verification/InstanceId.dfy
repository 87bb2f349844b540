/** The fallback identity of a database instance: no two databases share one. */
module InstanceId {
  import opened Seqs
  import opened Text

  // Decimal printing.

  function Digit(d: nat): (c: char)
    requires d < 10
    ensures '0' <= c <= '9'
  {
    ('0' as int + d) as char
  }

  predicate IsNumeral(s: string) {
    forall i :: 0 <= i < |s| ==> '0' <= s[i] <= '9' || s[i] == '-'
  }

  function Digits(n: nat): (s: string)
    ensures s != "" && IsNumeral(s) && s[0] != '-'
  {
    if n < 10 then [Digit(n)] else Digits(n / 10) + [Digit(n % 10)]
  }

  function Itoa(n: int): (s: string)
    ensures s != "" && IsNumeral(s)
  {
    if n < 0 then "-" + Digits(-n) else Digits(n)
  }

  function Value(s: string): int {
    if s == "" then 0 else 10 * Value(s[..|s| - 1]) + (s[|s| - 1] as int - '0' as int)
  }

  lemma {:induction false} ValueOfDigits(n: nat)
    ensures Value(Digits(n)) == n
  {
    if n >= 10 {
      ValueOfDigits(n / 10);
      SplitConcat(Digits(n / 10), [Digit(n % 10)]);
    } else {
      assert [Digit(n)][..0] == "";
    }
  }

  lemma ItoaInjective(m: int, n: int)
    requires Itoa(m) == Itoa(n)
    ensures m == n
  {
    ItoaReads(m);
    ItoaReads(n);
  }

  /** The number is read back from its sign and digits. */
  lemma ItoaReads(n: int)
    ensures (n < 0) <==> Itoa(n)[0] == '-'
    ensures n == if Itoa(n)[0] == '-' then -Value(Itoa(n)[1..]) else Value(Itoa(n))
  {
    hide Digits, Value;
    if n < 0 {
      SplitConcat("-", Digits(-n));
      ValueOfDigits(-n);
    } else {
      ValueOfDigits(n);
    }
  }

  // The identity.

  function Local(system: string, port: int, host: string): string {
    system + ":" + Itoa(port) + "@" + host
  }

  function Remote(address: string, port: int): string {
    address + ":" + Itoa(port)
  }

  /** Whether the host-scoped form is used; `loopback` is entity.IsLoopbackHost. */
  predicate Scoped(system: string, address: string, host: string, loopback: string -> bool) {
    host != "" && Trim(system) != "" && loopback(address)
  }

  function FallbackInstanceID(system: string, address: string, port: int, host: string, loopback: string -> bool): string {
    if Scoped(system, address, host, loopback) then Local(Trim(system), port, host) else Remote(address, port)
  }

  /** A loopback address is named by the system and the host, if both are known; any other target, and
      a loopback one without them, by its address. */
  lemma IdentityIs(system: string, address: string, port: int, host: string, loopback: string -> bool)
    ensures loopback(address) && host != "" && Trim(system) != "" ==>
              FallbackInstanceID(system, address, port, host, loopback) == Trim(system) + ":" + Itoa(port) + "@" + host
    ensures !loopback(address) || host == "" || Trim(system) == "" ==>
              FallbackInstanceID(system, address, port, host, loopback) == address + ":" + Itoa(port)
  {
  }

  predicate NoColon(s: string) {
    forall i :: 0 <= i < |s| ==> s[i] != ':'
  }

  /** Two strings cut at the first `c` are equal only if their parts are. */
  lemma CutFirst(a: string, b: string, x: string, y: string, c: char)
    requires forall i :: 0 <= i < |a| ==> a[i] != c
    requires forall i :: 0 <= i < |b| ==> b[i] != c
    requires a + [c] + x == b + [c] + y
    ensures a == b && x == y
  {
    var s, t := a + [c] + x, b + [c] + y;
    FindIs(s, c, |a|);
    FindIs(t, c, |b|);
    assert a == s[..|a|] && b == t[..|b|] && x == s[|a| + 1..] && y == t[|b| + 1..];
  }

  /** The same for the last `c`. */
  lemma CutLast(a: string, b: string, x: string, y: string, c: char)
    requires forall i :: 0 <= i < |x| ==> x[i] != c
    requires forall i :: 0 <= i < |y| ==> y[i] != c
    requires a + [c] + x == b + [c] + y
    ensures a == b && x == y
  {
    var s, t := a + [c] + x, b + [c] + y;
    var lastOfS, lastOfT := s[|a|], t[|b|];
    assert lastOfS == c && lastOfT == c;
    assert |a| < |b| ==> lastOfT in x;
    assert |b| < |a| ==> lastOfS in y;
    assert a == s[..|a|] && b == t[..|b|] && x == s[|a| + 1..] && y == t[|b| + 1..];
  }

  /** Host-scoped identities tell their parts apart when colons stay out of the system names, or out
      of the host ids. */
  lemma LocalInjective(s1: string, p1: int, h1: string, s2: string, p2: int, h2: string)
    requires (NoColon(s1) && NoColon(s2)) || (NoColon(h1) && NoColon(h2))
    requires Local(s1, p1, h1) == Local(s2, p2, h2)
    ensures s1 == s2 && p1 == p2 && h1 == h2
  {
    var n1, n2 := Itoa(p1), Itoa(p2);
    LocalParts(s1, n1, h1);
    LocalParts(s2, n2, h2);
    if NoColon(s1) && NoColon(s2) {
      CutFirst(s1, s2, n1 + "@" + h1, n2 + "@" + h2, ':');
    } else {
      CutLast(s1, s2, n1 + "@" + h1, n2 + "@" + h2, ':');
    }
    CutFirst(n1, n2, h1, h2, '@');
    ItoaInjective(p1, p2);
  }

  lemma LocalParts(s: string, n: string, h: string)
    ensures s + ":" + n + "@" + h == s + ":" + (n + "@" + h)
  {
    Assoc(s + ":" + n, "@", h);
    Assoc(s + ":", n, "@" + h);
    Assoc(n, "@", h);
  }

  lemma RemoteInjective(a1: string, p1: int, a2: string, p2: int)
    requires Remote(a1, p1) == Remote(a2, p2)
    ensures a1 == a2 && p1 == p2
  {
    CutLast(a1, a2, Itoa(p1), Itoa(p2), ':');
    ItoaInjective(p1, p2);
  }

  ghost predicate EndsInPort(host: string, q: int) {
    exists h: string :: host == Remote(h, q)
  }

  lemma EndsInPortHasColon(host: string, q: int)
    requires NoColon(host)
    ensures !EndsInPort(host, q)
  {
    forall h: string
      ensures host != Remote(h, q)
    {
      assert Remote(h, q)[|h|] == ':';
    }
  }

  /** A host-scoped identity is also a remote one exactly when the host id itself ends in a colon
      and the port, so never for a host id without a colon. */
  lemma LocalIsRemoteIff(system: string, port: int, host: string, q: int)
    ensures EndsInPort(Local(system, port, host), q) <==> EndsInPort(host, q)
  {
    var head := system + ":" + Itoa(port) + "@";
    if h: string :| host == Remote(h, q) {
      HeadBeforeRemote(head, h, q);
    }
    if a: string :| Local(system, port, host) == Remote(a, q) {
      RemoteTail(head, host, a, q);
    }
  }

  lemma HeadBeforeRemote(head: string, h: string, q: int)
    ensures EndsInPort(head + Remote(h, q), q)
  {
    assert head + (h + ":" + Itoa(q)) == (head + h) + ":" + Itoa(q);
    assert head + Remote(h, q) == Remote(head + h, q);
  }

  /** The colon and port of a remote identity that ends a text lie in its part after the '@'. */
  lemma RemoteTail(head: string, host: string, a: string, q: int)
    requires head != "" && head[|head| - 1] == '@' && head + host == a + ":" + Itoa(q)
    ensures EndsInPort(host, q)
  {
    var s, numeral := head + host, Itoa(q);
    AtIsBefore(head, host, a, numeral);
    var h := a[|head|..];
    assert host == h + ":" + numeral by {
      SplitConcat(head, host);
      Assoc(a, ":", numeral);
      Assoc(h, ":", numeral);
      assert a == head + h by {
        assert head == s[..|head|] && a == s[..|a|];
      }
      Assoc(head, h, ":" + numeral);
      SplitConcat(head, h + (":" + numeral));
    }
    assert host == Remote(h, q);
  }

  lemma AtIsBefore(head: string, host: string, a: string, numeral: string)
    requires head != "" && head[|head| - 1] == '@' && head + host == a + ":" + numeral && IsNumeral(numeral)
    ensures |head| <= |a|
  {
    var s := head + host;
    var last := s[|head| - 1];
    assert last == '@';
    assert |head| > |a| + 1 ==> last in numeral;
    assert |head| == |a| + 1 ==> last == ':';
  }

  lemma LocalIsNotRemote(system: string, port: int, host: string, a: string, q: int)
    requires NoColon(host)
    ensures Local(system, port, host) != Remote(a, q)
  {
    EndsInPortHasColon(host, q);
    LocalIsRemoteIff(system, port, host, q);
  }

  /** No two databases share an identity: host-scoped ones are told apart by system, port and host,
      the others by address and port, and the two kinds never meet. */
  lemma IdentitiesDistinct(s1: string, a1: string, p1: int, h1: string, s2: string, a2: string, p2: int, h2: string,
                           loopback: string -> bool)
    requires NoColon(h1) && NoColon(h2)
    requires FallbackInstanceID(s1, a1, p1, h1, loopback) == FallbackInstanceID(s2, a2, p2, h2, loopback)
    ensures Scoped(s1, a1, h1, loopback) == Scoped(s2, a2, h2, loopback)
    ensures p1 == p2
    ensures if Scoped(s1, a1, h1, loopback) then Trim(s1) == Trim(s2) && h1 == h2 else a1 == a2
  {
    if Scoped(s1, a1, h1, loopback) && Scoped(s2, a2, h2, loopback) {
      LocalInjective(Trim(s1), p1, h1, Trim(s2), p2, h2);
    } else if Scoped(s1, a1, h1, loopback) {
      LocalIsNotRemote(Trim(s1), p1, h1, a2, p2);
    } else if Scoped(s2, a2, h2, loopback) {
      LocalIsNotRemote(Trim(s2), p2, h2, a1, p1);
    } else {
      RemoteInjective(a1, p1, a2, p2);
    }
  }
}
