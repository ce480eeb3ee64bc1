/** String helpers shared by the two destination discoverers: error wrappers,
    ASCII lower-casing, substring search, decimal formatting of port numbers,
    endpoint formatting, and Go's byte-wise string order. */
module Text {

  /** An error reported by a foreign call (Kubernetes, AWS, a dial). */
  type Error = string

  datatype Option<T> = None | Some(value: T)

  datatype Result<T> = Ok(value: T) | Err(error: Error)

  // ---------------------------------------------------------------------------
  // Lower-casing (ASCII only) and substring search
  // ---------------------------------------------------------------------------

  function LowerChar(c: char): char {
    if 'A' <= c <= 'Z' then (c as int + 32) as char else c
  }

  /** `strings.ToLower`, restricted to ASCII letters. */
  function Lower(s: string): (r: string)
    ensures |r| == |s|
    ensures forall i :: 0 <= i < |s| ==> r[i] == LowerChar(s[i])
  {
    if s == [] then [] else [LowerChar(s[0])] + Lower(s[1..])
  }

  /** `t` occurs in `s` starting at position `i`. */
  predicate OccursAt(s: string, t: string, i: nat) {
    i + |t| <= |s| && s[i..i + |t|] == t
  }

  /** Substring test: some position of `s` starts a copy of `t`. */
  function Contains(s: string, t: string): (r: bool)
    ensures r <==> exists i: nat :: OccursAt(s, t, i)
    decreases |s|
  {
    if |t| > |s| then false
    else if s[..|t|] == t then (assert OccursAt(s, t, 0); true)
    else
      var r := Contains(s[1..], t);
      if r then
        var j: nat :| OccursAt(s[1..], t, j);
        assert OccursAt(s, t, j + 1) by { assert s[1..][j..j + |t|] == s[j + 1..j + 1 + |t|]; }
        r
      else
        assert forall i: nat :: !OccursAt(s, t, i) by {
          forall i: nat ensures !OccursAt(s, t, i) {
            if i == 0 {
              assert s[..|t|] == s[0..|t|];
            } else if i + |t| <= |s| {
              assert s[1..][i - 1..i - 1 + |t|] == s[i..i + |t|];
              assert !OccursAt(s[1..], t, i - 1);
            }
          }
        }
        r
  }

  /** The case-insensitive letters g, r, p, c stand at positions i .. i+3 of `name`. */
  predicate GrpcAt(name: string, i: nat) {
    i + 4 <= |name|
    && LowerChar(name[i]) == 'g' && LowerChar(name[i + 1]) == 'r'
    && LowerChar(name[i + 2]) == 'p' && LowerChar(name[i + 3]) == 'c'
  }

  /** grpc mode, as both discoverers decide it: the lower-cased name contains "grpc". */
  function IsGrpc(serviceName: string): bool {
    Contains(Lower(serviceName), "grpc")
  }

  /** grpc mode holds exactly when the service name contains "grpc" in any letter case. */
  lemma IsGrpcIff(serviceName: string)
    ensures IsGrpc(serviceName) <==> exists i: nat :: GrpcAt(serviceName, i)
  {
    var low := Lower(serviceName);
    forall i: nat ensures OccursAt(low, "grpc", i) <==> GrpcAt(serviceName, i) {
      if i + 4 <= |serviceName| {
        var w := low[i..i + 4];
        assert w == [low[i], low[i + 1], low[i + 2], low[i + 3]];
      }
    }
  }

  // ---------------------------------------------------------------------------
  // Decimal formatting (strconv.Itoa) and its inverse
  // ---------------------------------------------------------------------------

  function DigitChar(d: nat): (c: char)
    requires d < 10
    ensures '0' <= c <= '9'
  {
    ('0' as int + d) as char
  }

  predicate IsDigit(c: char) {
    '0' <= c <= '9'
  }

  /** Decimal digits of a natural number, most significant first, no leading zero. */
  function NatToString(n: nat): (s: string)
    ensures 0 < |s|
    ensures forall k :: 0 <= k < |s| ==> IsDigit(s[k])
    ensures n >= 10 ==> |s| >= 2
    decreases n
  {
    if n < 10 then [DigitChar(n)] else NatToString(n / 10) + [DigitChar(n % 10)]
  }

  /** `strconv.Itoa`. */
  function Itoa(n: int): (s: string)
    ensures 0 < |s|
    ensures s == "0" <==> n == 0
    ensures ':' !in s
  {
    if n < 0 then "-" + NatToString(-n)
    else
      var s := NatToString(n);
      assert 0 < n < 10 ==> s[0] != '0';
      s
  }

  /** Value of a string of decimal digits. */
  function DecimalValue(s: string): nat
    requires forall k :: 0 <= k < |s| ==> IsDigit(s[k])
  {
    if s == [] then 0
    else
      assert IsDigit(s[|s| - 1]);
      DecimalValue(s[..|s| - 1]) * 10 + (s[|s| - 1] as int - '0' as int)
  }

  /** `strconv.Atoi` restricted to the strings `strconv.Itoa` produces. */
  function Atoi(s: string): int
    requires 0 < |s|
    requires s[0] == '-' ==> forall k :: 1 <= k < |s| ==> IsDigit(s[k])
    requires s[0] != '-' ==> forall k :: 0 <= k < |s| ==> IsDigit(s[k])
  {
    if s[0] == '-' then -(DecimalValue(s[1..]) as int) else DecimalValue(s)
  }

  lemma {:induction false} NatToStringRoundTrip(n: nat)
    ensures DecimalValue(NatToString(n)) == n
    decreases n
  {
    if n >= 10 {
      NatToStringRoundTrip(n / 10);
      var s := NatToString(n);
      assert s[..|s| - 1] == NatToString(n / 10);
    }
  }

  /** A port number printed by `strconv.Itoa` reads back as the same number. */
  lemma ItoaRoundTrip(n: int)
    ensures Atoi(Itoa(n)) == n
  {
    if n < 0 {
      NatToStringRoundTrip(-n);
      assert Itoa(n)[1..] == NatToString(-n);
    } else {
      NatToStringRoundTrip(n);
    }
  }

  // ---------------------------------------------------------------------------
  // Endpoint strings
  // ---------------------------------------------------------------------------

  /** `host:port` in grpc mode and `http://host:port` otherwise. */
  function FormatEndpoint(host: string, port: string, isGrpc: bool): string {
    if isGrpc then host + ":" + port else "http://" + host + ":" + port
  }

  /** Splits `s` at its last ':' into the part before and the part after. */
  function SplitLastColon(s: string): Option<(string, string)> {
    if s == [] then None
    else if s[|s| - 1] == ':' then Some((s[..|s| - 1], ""))
    else match SplitLastColon(s[..|s| - 1])
      case None => None
      case Some(hp) => Some((hp.0, hp.1 + [s[|s| - 1]]))
  }

  /** Reads an endpoint back into host and port, for the given mode. */
  function ParseEndpoint(e: string, isGrpc: bool): Option<(string, string)> {
    if isGrpc then SplitLastColon(e)
    else if |e| >= 7 && e[..7] == "http://" then SplitLastColon(e[7..])
    else None
  }

  lemma {:induction false} SplitLastColonAppend(host: string, port: string)
    requires ':' !in port
    ensures SplitLastColon(host + ":" + port) == Some((host, port))
    decreases |port|
  {
    var s := host + ":" + port;
    if port == [] {
      assert s[..|s| - 1] == host;
    } else {
      var init := port[..|port| - 1];
      assert s[..|s| - 1] == host + ":" + init;
      SplitLastColonAppend(host, init);
      assert init + [port[|port| - 1]] == port;
    }
  }

  /** Formatting then parsing an endpoint gives back the host and the port,
      whenever the port has no ':' (which holds of every `Itoa` result). */
  lemma EndpointRoundTrip(host: string, port: string, isGrpc: bool)
    requires ':' !in port
    ensures ParseEndpoint(FormatEndpoint(host, port, isGrpc), isGrpc) == Some((host, port))
  {
    SplitLastColonAppend(host, port);
    if !isGrpc {
      var e := FormatEndpoint(host, port, isGrpc);
      assert e[..7] == "http://";
      assert e[7..] == host + ":" + port;
    }
  }

  // ---------------------------------------------------------------------------
  // Go's string order (lexicographic, a prefix sorts first)
  // ---------------------------------------------------------------------------

  /** Lexicographic order on code points. Go compares the UTF-8 bytes; UTF-8
      keeps code-point order, so the two agree on every valid UTF-8 string. */

  predicate StrLeq(a: string, b: string) {
    if a == [] then true
    else if b == [] then false
    else if a[0] != b[0] then a[0] < b[0]
    else StrLeq(a[1..], b[1..])
  }

  lemma {:induction false} StrLeqTotal(a: string, b: string)
    ensures StrLeq(a, b) || StrLeq(b, a)
  {
    if a != [] && b != [] && a[0] == b[0] {
      StrLeqTotal(a[1..], b[1..]);
    }
  }

  lemma {:induction false} StrLeqAntisymmetric(a: string, b: string)
    requires StrLeq(a, b) && StrLeq(b, a)
    ensures a == b
  {
    if a != [] && b != [] {
      StrLeqAntisymmetric(a[1..], b[1..]);
      assert a == [a[0]] + a[1..];
      assert b == [b[0]] + b[1..];
    }
  }

  lemma {:induction false} StrLeqTransitive(a: string, b: string, c: string)
    requires StrLeq(a, b) && StrLeq(b, c)
    ensures StrLeq(a, c)
  {
    if a != [] && b != [] && c != [] && a[0] == b[0] == c[0] {
      StrLeqTransitive(a[1..], b[1..], c[1..]);
    }
  }

  /** Sorted ascending in Go's string order. */
  ghost predicate Sorted(s: seq<string>) {
    forall i, j :: 0 <= i < j < |s| ==> StrLeq(s[i], s[j])
  }
}
