/** Signed decimal numbers as `%d` prints them. */
module Numbers {
  import opened Masks
  import opened Text
  import opened Wrappers

  function Itoa(n: int): string {
    if n < 0 then ['-'] + Dec(-n) else Dec(n)
  }

  /** The number that an optional sign and decimal digits spell. */
  function Atoi(s: string): Option<int> {
    var digits := if s != [] && (s[0] == '-' || s[0] == '+') then s[1..] else s;
    if digits == [] || !All(IsDigit, digits) then None
    else Some(if s[0] == '-' then 0 - DecVal(digits) else DecVal(digits))
  }

  lemma AtoiItoa(n: int)
    ensures Atoi(Itoa(n)) == Some(n)
  {
    var m := if n < 0 then -n else n;
    DecValDec(m);
    assert IsDigit(Dec(m)[0]);
  }

  /** `strconv.ParseInt(s, 10, 64)`. */
  function ParseInt(s: string): Option<Int64> {
    var n :- Atoi(s);
    if -HALF <= n < HALF then Some(n) else None
  }

  lemma ParsePrinted(n: Int64)
    ensures ParseInt(Itoa(n)) == Some(n)
  {
    AtoiItoa(n);
    hide Itoa, Atoi;
  }

  /** A numeric form field as a switch reads it. */
  function Number(s: string): Int64 {
    match ParseInt(s)
    case Some(n) => n
    case None => 0
  }

  lemma DecInjective(m: nat, n: nat)
    requires Dec(m) == Dec(n)
    ensures m == n
  {
    DecValDec(m);
    DecValDec(n);
  }
}
