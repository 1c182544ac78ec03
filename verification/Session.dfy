/** Signed session tokens.  Byte strings are strings of characters below 256. */
module Session {
  import opened Masks
  import opened Numbers
  import opened Text
  import opened Wrappers

  type Bytes = s: string | forall i :: 0 <= i < |s| ==> s[i] as int < 256

  // ------------------------------------------ base64url, RFC 4648 section 5

  predicate IsSextet(c: char) {
    'A' <= c <= 'Z' || 'a' <= c <= 'z' || IsDigit(c) || c == '-' || c == '_'
  }

  function Letter(n: nat): (c: char)
    requires n < 64
    ensures IsSextet(c)
  {
    if n < 26 then ('A' as int + n) as char
    else if n < 52 then ('a' as int + (n - 26)) as char
    else if n < 62 then ('0' as int + (n - 52)) as char
    else if n == 62 then '-' else '_'
  }

  function Sextet(c: char): (n: nat)
    requires IsSextet(c)
    ensures n < 64
  {
    if 'A' <= c <= 'Z' then c as int - 'A' as int
    else if 'a' <= c <= 'z' then c as int - 'a' as int + 26
    else if IsDigit(c) then c as int - '0' as int + 52
    else if c == '-' then 62 else 63
  }

  lemma SextetLetter(n: nat)
    requires n < 64
    ensures Sextet(Letter(n)) == n
  {
  }

  predicate IsByte(c: char) {
    c as int < 256
  }

  /** The letters of three octets. */
  function Quad(x: char, y: char, z: char): (q: string)
    requires IsByte(x) && IsByte(y) && IsByte(z)
    ensures |q| == 4 && IsSextet(q[0]) && IsSextet(q[1]) && IsSextet(q[2]) && IsSextet(q[3])
  {
    var a, b, c := x as int, y as int, z as int;
    [Letter(a / 4), Letter(a % 4 * 16 + b / 16), Letter(b % 16 * 4 + c / 64), Letter(c % 64)]
  }

  /** The octets of four letters. */
  function Triple(a: char, b: char, c: char, d: char): (r: Bytes)
    requires IsSextet(a) && IsSextet(b) && IsSextet(c) && IsSextet(d)
    ensures |r| == 3
  {
    var p, q, r, s := Sextet(a), Sextet(b), Sextet(c), Sextet(d);
    [(p * 4 + q / 16) as char, (q % 16 * 16 + r / 4) as char, (r % 4 * 64 + s) as char]
  }

  /** A last group of one or two octets is filled up with zeros and padded. */
  function Encode(b: Bytes): string {
    if b == [] then []
    else if |b| == 1 then Quad(b[0], 0 as char, 0 as char)[..2] + ['=', '=']
    else if |b| == 2 then Quad(b[0], b[1], 0 as char)[..3] + ['=']
    else Quad(b[0], b[1], b[2]) + Encode(b[3..])
  }

  predicate NotNewline(c: char) {
    c != '\n' && c != '\r'
  }

  /** The decoder skips line ends wherever they stand. */
  function Filtered(s: string): string {
    if s == [] then [] else (if NotNewline(s[0]) then [s[0]] else []) + Filtered(s[1..])
  }

  /** Whole groups of four, the last of which may be padded; bits that only fill up a group are not looked at. */
  function DecodeGroups(t: string): Option<Bytes> {
    if t == [] then Some([])
    else if |t| < 4 || !IsSextet(t[0]) || !IsSextet(t[1]) then None
    else if t[2] == '=' then
      if t[3] == '=' && |t| == 4 then Some(Triple(t[0], t[1], 'A', 'A')[..1]) else None
    else if !IsSextet(t[2]) then None
    else if t[3] == '=' then
      if |t| == 4 then Some(Triple(t[0], t[1], t[2], 'A')[..2]) else None
    else if !IsSextet(t[3]) then None
    else
      var rest :- DecodeGroups(t[4..]);
      Some(Triple(t[0], t[1], t[2], t[3]) + rest)
  }

  function Decode(s: string): Option<Bytes> {
    DecodeGroups(Filtered(s))
  }

  predicate EncodedChar(c: char) {
    IsSextet(c) || c == '='
  }

  lemma {:induction false} EncodedChars(b: Bytes)
    ensures All(EncodedChar, Encode(b))
  {
    if |b| > 2 {
      EncodedChars(b[3..]);
    }
  }

  lemma {:induction false} FilteredAlready(s: string)
    requires All(NotNewline, s)
    ensures Filtered(s) == s
  {
    if s != [] {
      FilteredAlready(s[1..]);
    }
  }

  lemma GroupBack(x: nat, y: nat, z: nat)
    requires x < 256 && y < 256 && z < 256
    ensures x / 4 * 4 + (x % 4 * 16 + y / 16) / 16 == x
    ensures (x % 4 * 16 + y / 16) % 16 * 16 + (y % 16 * 4 + z / 64) / 4 == y
    ensures (y % 16 * 4 + z / 64) % 4 * 64 + z % 64 == z
  {
  }

  lemma QuadBack(x: char, y: char, z: char)
    requires IsByte(x) && IsByte(y) && IsByte(z)
    ensures var q := Quad(x, y, z); Triple(q[0], q[1], q[2], q[3]) == [x, y, z]
  {
    var a, b, c := x as int, y as int, z as int;
    GroupBack(a, b, c);
    SextetLetter(a / 4);
    SextetLetter(a % 4 * 16 + b / 16);
    SextetLetter(b % 16 * 4 + c / 64);
    SextetLetter(c % 64);
    hide Letter, Sextet, IsSextet;
  }

  /** The first octet needs two letters, the first two need three. */
  lemma TriplePrefix(a: char, b: char, c: char, d: char)
    requires IsSextet(a) && IsSextet(b) && IsSextet(c) && IsSextet(d)
    ensures Triple(a, b, 'A', 'A')[..1] == Triple(a, b, c, d)[..1]
    ensures Triple(a, b, c, 'A')[..2] == Triple(a, b, c, d)[..2]
  {
    hide Sextet, IsSextet;
  }

  lemma DecodeQuad(q: string, rest: string)
    requires |q| == 4 && IsSextet(q[0]) && IsSextet(q[1]) && IsSextet(q[2]) && IsSextet(q[3])
    ensures DecodeGroups(rest).Some? ==>
              DecodeGroups(q + rest) == Some(Triple(q[0], q[1], q[2], q[3]) + DecodeGroups(rest).value)
    ensures DecodeGroups(q[..2] + ['=', '=']) == Some(Triple(q[0], q[1], q[2], q[3])[..1])
    ensures DecodeGroups(q[..3] + ['=']) == Some(Triple(q[0], q[1], q[2], q[3])[..2])
  {
    TriplePrefix(q[0], q[1], q[2], q[3]);
    assert (q + rest)[4..] == rest;
    assert !IsSextet('=');
    hide Sextet, IsSextet, Triple;
  }

  lemma {:induction false} GroupsRoundTrip(b: Bytes)
    ensures DecodeGroups(Encode(b)) == Some(b)
  {
    hide DecodeGroups, Quad, Triple, IsSextet;
    if b == [] {
      NothingDecodes();
    } else {
      var x, y, z := b[0], if |b| > 1 then b[1] else 0 as char, if |b| > 2 then b[2] else 0 as char;
      QuadBack(x, y, z);
      if |b| > 2 {
        GroupsRoundTrip(b[3..]);
        DecodeQuad(Quad(x, y, z), Encode(b[3..]));
        assert b == [x, y, z] + b[3..];
      } else {
        DecodeQuad(Quad(x, y, z), "");
        assert [x, y, z][..|b|] == b;
      }
    }
  }

  lemma NothingDecodes()
    ensures DecodeGroups("") == Some([])
  {
  }

  lemma Base64RoundTrip(b: Bytes)
    ensures Decode(Encode(b)) == Some(b)
    ensures '.' !in Encode(b)
  {
    EncodedChars(b);
    assert All(NotNewline, Encode(b)) by {
      assert forall i :: 0 <= i < |Encode(b)| ==> EncodedChar(Encode(b)[i]);
    }
    assert !EncodedChar('.');
    FilteredAlready(Encode(b));
    GroupsRoundTrip(b);
  }

  // ----------------------------------------------------------------- tokens

  datatype Error = MalformedToken | MalformedMac | BadSignature | MalformedPayload | MalformedExpiry | Expired

  datatype Result<+T> = Ok(value: T) | Err(error: Error)

  /** The position of the first `c`, or the length. */
  function Index(s: string, c: char): (i: nat)
    ensures i <= |s| && (i < |s| ==> s[i] == c) && forall j :: 0 <= j < i ==> s[j] != c
  {
    if s == [] || s[0] == c then 0 else 1 + Index(s[1..], c)
  }

  /** The position of the last `c`, or -1. */
  function LastIndex(s: string, c: char): (i: int)
    ensures -1 <= i < |s| && (i >= 0 ==> s[i] == c) && forall j :: i < j < |s| ==> s[j] != c
  {
    if s == [] then -1 else if s[|s| - 1] == c then |s| - 1 else LastIndex(s[..|s| - 1], c)
  }

  lemma ItoaBytes(n: int)
    ensures forall i :: 0 <= i < |Itoa(n)| ==> Itoa(n)[i] as int < 256 && Itoa(n)[i] != '|'
  {
    var d := Dec(if n < 0 then -n else n);
    assert forall i :: 0 <= i < |d| ==> IsDigit(d[i]);
  }

  function Payload(username: Bytes, expiry: Int64): Bytes {
    ItoaBytes(expiry);
    username + ['|'] + Itoa(expiry)
  }

  /** `mac` is the keyed hash under the server's secret. */
  function SignSession(mac: string -> Bytes, username: Bytes, expiry: Int64): string {
    var payload := Encode(Payload(username, expiry));
    payload + ['.'] + Encode(mac(payload))
  }

  function ParsePayload(payload: Bytes, now: int): Result<Bytes> {
    var bar := Index(payload, '|');
    if bar == |payload| then Err(MalformedPayload)
    else
      match ParseInt(payload[bar + 1..])
      case None => Err(MalformedExpiry)
      case Some(expiry) => if now > expiry then Err(Expired) else Ok(payload[..bar])
  }

  function ParseSession(mac: string -> Bytes, token: string, now: int): Result<Bytes> {
    var dot := LastIndex(token, '.');
    if dot < 0 then Err(MalformedToken)
    else
      var payload, macPart := token[..dot], token[dot + 1..];
      match Decode(macPart)
      case None => Err(MalformedMac)
      case Some(got) =>
        if got != mac(payload) then Err(BadSignature)
        else
          match Decode(payload)
          case None => Err(MalformedPayload)
          case Some(bytes) => ParsePayload(bytes, now)
  }

  lemma NotANumber(s: string)
    requires '|' in s
    ensures ParseInt(s) == None
  {
    var i :| 0 <= i < |s| && s[i] == '|';
    var digits := if s != [] && (s[0] == '-' || s[0] == '+') then s[1..] else s;
    if digits != s {
      assert digits[i - 1] == '|';
    }
    assert !IsDigit('|');
  }

  lemma FirstBar(username: Bytes, tail: string)
    requires '|' !in username
    ensures Index(username + ['|'] + tail, '|') == |username|
  {
    hide Index;
    var s := username + ['|'] + tail;
    assert s[|username|] == '|';
    assert forall i :: 0 <= i < |username| ==> s[i] == username[i] && s[i] != '|';
  }

  lemma PayloadRoundTrip(username: Bytes, expiry: Int64, now: int)
    ensures ParsePayload(Payload(username, expiry), now) ==
            if '|' in username then Err(MalformedExpiry) else if now > expiry then Err(Expired) else Ok(username)
  {
    var p, tail := Payload(username, expiry), Itoa(expiry);
    ItoaBytes(expiry);
    ParsePrinted(expiry);
    hide Itoa, ParseInt;
    var bar := Index(p, '|');
    if '|' in username {
      var i :| 0 <= i < |username| && username[i] == '|';
      assert p[i] == '|';
      assert bar <= i;
      assert p[bar + 1..][|username| - bar - 1] == p[|username|] == '|';
      NotANumber(p[bar + 1..]);
    } else {
      FirstBar(username, tail);
      assert p[bar + 1..] == tail && p[..bar] == username;
    }
  }

  lemma {:induction false} LastDot(a: string, b: string)
    requires '.' !in b
    ensures LastIndex(a + ['.'] + b, '.') == |a|
  {
    var s := a + ['.'] + b;
    if b == [] {
      assert s == a + ['.'];
    } else {
      assert s[|s| - 1] == b[|b| - 1] && s[..|s| - 1] == a + ['.'] + b[..|b| - 1];
      LastDot(a, b[..|b| - 1]);
    }
  }

  /** The printer and the parser are inverse exactly on names without a bar and until the expiry. */
  lemma SessionRoundTrip(mac: string -> Bytes, username: Bytes, expiry: Int64, now: int)
    ensures ParseSession(mac, SignSession(mac, username, expiry), now) ==
            if '|' in username then Err(MalformedExpiry) else if now > expiry then Err(Expired) else Ok(username)
  {
    hide Encode, Decode, Payload, ParsePayload, LastIndex;
    var payload := Encode(Payload(username, expiry));
    var sealed := Encode(mac(payload));
    Base64RoundTrip(Payload(username, expiry));
    Base64RoundTrip(mac(payload));
    LastDot(payload, sealed);
    var token := payload + ['.'] + sealed;
    assert token[..|payload|] == payload && token[|payload| + 1..] == sealed;
    PayloadRoundTrip(username, expiry, now);
  }

  /** A token is accepted only with the hash of its own payload, and only for a payload a signer could have made. */
  lemma AcceptedIsSigned(mac: string -> Bytes, token: string, now: int)
    returns (payload: string, username: Bytes, expiry: Int64)
    requires ParseSession(mac, token, now).Ok?
    ensures ParseSession(mac, token, now) == Ok(username) && '|' !in username && now <= expiry
    ensures payload + ['.'] <= token && Decode(token[|payload| + 1..]) == Some(mac(payload))
    ensures Decode(payload).Some? && username + ['|'] <= Decode(payload).value
    ensures ParseInt(Decode(payload).value[|username| + 1..]) == Some(expiry)
  {
    hide Decode, ParseInt;
    payload := token[..LastIndex(token, '.')];
    var bytes := Decode(payload).value;
    var bar := Index(bytes, '|');
    username := bytes[..bar];
    expiry := ParseInt(bytes[bar + 1..]).value;
  }
}
