/** The text processing of the serial command line (uart0.c): the baud-rate
    divisor arithmetic, the backspace-aware line editor, lower-casing, the
    strtok-based field splitter that fills a USER_DATA record, and the
    dotted-quad IP parser. Characters are bytes (`bv8`); a C string is the
    sequence of its bytes before the NUL. */
module Uart {
  import opened Bytes

  /** MAX_CHARS (uart0.h:25): the longest line getsUart0 accepts. */
  const MaxChars: nat := 50
  /** 2^32: uint32 arithmetic wraps modulo this. */
  const U32: nat := 0x1_0000_0000

  const Backspace: bv8 := 8
  const Delete: bv8 := 127
  const Lf: bv8 := 10
  const Cr: bv8 := 13
  const Space: bv8 := 32
  const Dot: bv8 := 46
  const Zero: bv8 := 48
  const Nine: bv8 := 57

  // ---------------------------------------------------------------------
  // setUart0BaudRate (uart0.c:80-86): only the divisor arithmetic.
  // ---------------------------------------------------------------------

  /** The values written to UART0_IBRD_R and UART0_FBRD_R. */
  datatype BaudDivisor = BaudDivisor(ibrd: nat, fbrd: nat)

  /** The divisor in 1/128 units, (fcyc * 8) / baudRate in uint32 arithmetic. */
  function DivisorTimes128(baudRate: nat, fcyc: nat): (d: nat)
    requires 0 < baudRate < U32 && fcyc < U32
    ensures d < U32
  {
    (fcyc * 8) % U32 / baudRate
  }

  /** The divisor as setUart0BaudRate computes it: the integer part is d >> 7 and
      the fraction is ((d + 1) >> 1) & 63, the intended round(fract(r) * 64). */
  function SetUart0BaudRate(baudRate: nat, fcyc: nat): (r: BaudDivisor)
    requires 0 < baudRate < U32 && fcyc < U32
    ensures r.fbrd < 64
  {
    var d := DivisorTimes128(baudRate, fcyc);
    BaudDivisor(d / 128, (d + 1) % U32 / 2 % 64)
  }

  /** The divisor with the rounding carried into the integer part: the nearest
      multiple of 1/64 to the exact divisor. */
  function RoundedBaudDivisor(baudRate: nat, fcyc: nat): (r: BaudDivisor)
    requires 0 < baudRate < U32 && fcyc < U32
    ensures r.fbrd < 64
  {
    var d := DivisorTimes128(baudRate, fcyc);
    var sixtyFourths := (d + 1) % U32 / 2;
    BaudDivisor(sixtyFourths / 64, sixtyFourths % 64)
  }

  /** The constants initUart0 hard-codes (uart0.c:71-73) are what the routine
      computes for 115200 baud from the 40 MHz system clock. */
  lemma BaudAtBoot()
    ensures SetUart0BaudRate(115200, 40000000) == BaudDivisor(21, 45)
  {
  }

  lemma DivDiv(x: nat, b: nat, c: nat)
    requires b > 0 && c > 0
    ensures x / b / c == x / (b * c)
  {
    var q2, r2, r := x / b / c, x / b % c, x % b;
    DivDivParts(x, b, c);
    DivDivRemainder(b, c, r2, r);
    DivUnique(x, b * c, q2, b * r2 + r);
  }

  /** x split by b and then by c: x = (b * c) * q2 + (b * r2 + r). */
  lemma DivDivParts(x: nat, b: nat, c: nat)
    requires b > 0 && c > 0
    ensures x == (b * c) * (x / b / c) + (b * (x / b % c) + x % b)
  {
    var q, r := x / b, x % b;
    var q2, r2 := q / c, q % c;
    assert x == b * q + r;
    assert q == c * q2 + r2;
    assert b * q == b * (c * q2) + b * r2;
    assert b * (c * q2) == (b * c) * q2;
  }

  lemma DivDivRemainder(b: nat, c: nat, r2: nat, r: nat)
    requires r2 < c && r < b
    ensures b * r2 + r < b * c
  {
    MulMono(b, r2, c - 1);
    assert b * (c - 1) == b * c - b;
  }

  lemma {:induction false} MulMono(n: nat, a: nat, b: nat)
    requires a <= b
    ensures n * a <= n * b
    decreases b - a
  {
    if a < b {
      MulMono(n, a, b - 1);
      assert n * b == n * (b - 1) + n;
    }
  }

  /** A smaller factor gives a product smaller by at least one multiple of n. */
  lemma MulStep(n: nat, a: nat, b: nat)
    ensures a < b ==> n * a + n <= n * b
  {
    if a < b {
      MulMono(n, a + 1, b);
      assert n * (a + 1) == n * a + n;
    }
  }

  /** Division has one quotient: a remainder below the divisor fixes it. */
  lemma DivUnique(x: nat, n: nat, q: nat, r: nat)
    requires n > 0 && r < n && x == n * q + r
    ensures x / n == q
  {
    var q', r' := x / n, x % n;
    assert x == n * q' + r';
    MulStep(n, q', q);
    MulStep(n, q, q');
  }

  /** Without overflow of fcyc * 8, the integer divisor is floor(fcyc / (16 * baudRate)). */
  lemma {:induction false} BaudIntegerPart(baudRate: nat, fcyc: nat)
    requires 0 < baudRate < U32 && fcyc * 8 < U32
    ensures SetUart0BaudRate(baudRate, fcyc).ibrd == fcyc / (16 * baudRate)
  {
    var d := DivisorTimes128(baudRate, fcyc);
    assert d == fcyc * 8 / baudRate;
    DivDiv(fcyc * 8, baudRate, 128);
    assert baudRate * 128 == (16 * baudRate) * 8;
    DivScale(fcyc, 16 * baudRate, 8);
  }

  /** Scaling dividend and divisor by the same factor keeps the quotient. */
  lemma DivScale(x: nat, m: nat, k: nat)
    requires m > 0 && k > 0
    ensures x * k / (m * k) == x / m
  {
    var q, r := x / m, x % m;
    assert x * k == (m * k) * q + r * k by {
      assert x == m * q + r;
      assert x * k == (m * q) * k + r * k;
    }
    assert r * k < m * k by {
      MulMono(k, r, m - 1);
      assert k * (m - 1) == k * m - k;
    }
    DivUnique(x * k, m * k, q, r * k);
  }

  /** The written fraction equals the rounded divisor exactly when the fraction
      does not round up to a whole 64/64: it loses the carry when d % 128 == 127. */
  lemma {:induction false} BaudRoundsUnlessCarry(baudRate: nat, fcyc: nat)
    requires 0 < baudRate < U32 && fcyc < U32
    requires DivisorTimes128(baudRate, fcyc) + 1 < U32
    ensures var r := SetUart0BaudRate(baudRate, fcyc);
            var d := DivisorTimes128(baudRate, fcyc);
            (64 * r.ibrd + r.fbrd == (d + 1) / 2 <==> d % 128 != 127)
            && (d % 128 == 127 ==> 64 * r.ibrd + r.fbrd + 64 == (d + 1) / 2)
  {
    CarryArithmetic(DivisorTimes128(baudRate, fcyc));
  }

  /** The carry arithmetic of BaudRoundsUnlessCarry on the 1/128 divisor d alone. */
  lemma CarryArithmetic(d: nat)
    requires d + 1 < U32
    ensures (64 * (d / 128) + (d + 1) % U32 / 2 % 64 == (d + 1) / 2 <==> d % 128 != 127)
            && (d % 128 == 127 ==> 64 * (d / 128) + (d + 1) % U32 / 2 % 64 + 64 == (d + 1) / 2)
  {
    var q := d / 128;
    var m := d % 128;
    assert d == 128 * q + m;
    assert (d + 1) % U32 == d + 1;
    assert (d + 1) / 2 == 64 * q + (m + 1) / 2;
    if m == 127 {
      assert (d + 1) / 2 == 64 * (q + 1);
      assert (d + 1) / 2 % 64 == 0;
    } else {
      assert (m + 1) / 2 < 64;
      assert (d + 1) / 2 % 64 == (m + 1) / 2;
    }
  }

  /** A concrete divisor that shows the lost carry: 16 MHz at 125122 baud is an
      exact divisor of 7.9922, written as 7 + 0/64 instead of 8 + 0/64. */
  lemma BaudCarryLost()
    ensures SetUart0BaudRate(125122, 16000000) == BaudDivisor(7, 0)
    ensures RoundedBaudDivisor(125122, 16000000) == BaudDivisor(8, 0)
  {
  }

  /** The corrected divisor is within half a 1/128 step of the exact divisor:
      2 * (64 * ibrd + fbrd) is d or d + 1. */
  lemma {:induction false} RoundedBaudDivisorIsNearest(baudRate: nat, fcyc: nat)
    requires 0 < baudRate < U32 && fcyc < U32
    requires DivisorTimes128(baudRate, fcyc) + 1 < U32
    ensures var r := RoundedBaudDivisor(baudRate, fcyc);
            var d := DivisorTimes128(baudRate, fcyc);
            d <= 2 * (64 * r.ibrd + r.fbrd) <= d + 1
  {
    var d := DivisorTimes128(baudRate, fcyc);
    var s := (d + 1) % U32 / 2;
    assert (d + 1) % U32 == d + 1;
    assert s == 64 * (s / 64) + s % 64;
  }

  // ---------------------------------------------------------------------
  // isDigit and toLowerCase (uart0.c:112-124, 201-204)
  // ---------------------------------------------------------------------

  /** isDigit (and the C library isdigit it stands beside). */
  predicate IsDigit(c: bv8)
  {
    Zero <= c <= Nine
  }

  /** isDigit holds exactly for the ten characters '0'..'9'. */
  lemma IsDigitExactly(c: bv8)
    ensures IsDigit(c) <==> c in Str("0123456789")
  {
    DigitCodes();
    var digits: seq<bv8> := [48, 49, 50, 51, 52, 53, 54, 55, 56, 57];
    if IsDigit(c) {
      assert digits[c - Zero] == c;
    }
  }

  /** The character codes of the ten digits. */
  lemma DigitCodes()
    ensures Str("0123456789") == [48, 49, 50, 51, 52, 53, 54, 55, 56, 57]
  {
  }

  function Lower(c: bv8): (r: bv8)
  {
    if 0x41 <= c <= 0x5A then c + 32 else c
  }

  function LowerAll(s: seq<bv8>): (r: seq<bv8>)
    ensures |r| == |s|
  {
    seq(|s|, k requires 0 <= k < |s| => Lower(s[k]))
  }

  /** The length of a C string: the index of its first NUL. */
  function NulIndex(s: seq<bv8>): (n: nat)
    requires 0 in s
    ensures n < |s| && s[n] == 0 && 0 !in s[..n]
  {
    if s[0] == 0 then 0 else 1 + NulIndex(s[1..])
  }

  /** The buffer toLowerCase leaves: the string lower-cased up to its NUL, the
      NUL and everything after it unchanged. */
  function LowerString(s: seq<bv8>): (r: seq<bv8>)
    requires 0 in s
  {
    LowerAll(s[..NulIndex(s)]) + s[NulIndex(s)..]
  }

  /** toLowerCase: lower-cases a NUL-terminated string in place. */
  method ToLowerCase(str: array<bv8>)
    requires 0 in str[..]
    modifies str
    ensures str[..] == LowerString(old(str[..]))
  {
    ghost var n := NulIndex(str[..]);
    var index := 0;
    while str[index] != 0
      invariant 0 <= index <= n
      invariant str[n] == 0
      invariant forall m :: 0 <= m < str.Length ==> str[m] == if m < index then Lower(old(str[m])) else old(str[m])
      decreases n - index
    {
      assert old(str[index]) != 0;
      if 0x41 <= str[index] <= 0x5A {
        str[index] := str[index] + 32;
      }
      index := index + 1;
    }
    assert index == n;
    assert str[..] == LowerString(old(str[..]));
  }

  /** Lower-casing maps exactly 'A'..'Z' to 'a'..'z' and leaves no capital. */
  lemma LowerMapsCapitals(s: seq<bv8>)
    ensures forall k :: 0 <= k < |s| ==>
      (0x41 <= s[k] <= 0x5A ==> LowerAll(s)[k] == s[k] + 32)
      && (!(0x41 <= s[k] <= 0x5A) ==> LowerAll(s)[k] == s[k])
    ensures forall k :: 0 <= k < |s| ==> !(0x41 <= LowerAll(s)[k] <= 0x5A)
  {
  }

  /** Lower-casing twice is lower-casing once. */
  lemma LowerStringIdempotent(s: seq<bv8>)
    requires 0 in s
    ensures 0 in LowerString(s)
    ensures LowerString(LowerString(s)) == LowerString(s)
  {
    var n := NulIndex(s);
    var t := LowerString(s);
    assert t[n] == 0;
    assert 0 !in t[..n] by {
      assert forall k :: 0 <= k < n ==> t[k] == Lower(s[k]);
    }
    NulIndexUnique(t, n);
    assert t[..n] == LowerAll(s[..n]);
    assert LowerAll(LowerAll(s[..n])) == LowerAll(s[..n]);
  }

  /** Lower-casing keeps the string's length. */
  lemma LowerStringKeepsLength(s: seq<bv8>)
    requires 0 in s
    ensures |LowerString(s)| == |s| && 0 in LowerString(s)
    ensures NulIndex(LowerString(s)) == NulIndex(s)
  {
    var n := NulIndex(s);
    var t := LowerString(s);
    assert t[n] == 0;
    assert forall k :: 0 <= k < n ==> t[k] == Lower(s[k]);
    NulIndexUnique(t, n);
  }

  lemma NulIndexUnique(s: seq<bv8>, n: nat)
    requires n < |s| && s[n] == 0 && forall k :: 0 <= k < n ==> s[k] != 0
    ensures 0 in s && NulIndex(s) == n
  {
    if n > 0 {
      NulIndexUnique(s[1..], n - 1);
    }
  }

  // ---------------------------------------------------------------------
  // getsUart0 (uart0.c:126-154) over a sequence of received characters
  // ---------------------------------------------------------------------

  /** What one received character does to the line typed so far. */
  function Keep(kept: seq<bv8>, c: bv8): seq<bv8>
  {
    if c == Backspace || c == Delete then (if |kept| > 0 then kept[..|kept| - 1] else kept)
    else if c < Space then kept
    else kept + [c]
  }

  /** The line the characters `cs` leave when typed one after another. */
  function Typed(cs: seq<bv8>): seq<bv8>
  {
    if |cs| == 0 then [] else Keep(Typed(cs[..|cs| - 1]), cs[|cs| - 1])
  }

  /** The editor's state after its loop: the raw buffer, the count of kept
      characters and how many characters were read from the input. */
  datatype LineState = LineState(buf: seq<bv8>, count: nat, consumed: nat)

  /** The character loop from iteration `i` on, the previous character having
      been neither CR nor LF. It ends after MAX_CHARS characters, after a CR or
      an LF, or when the input runs out (where getcUart0 would wait). */
  function Edit(input: seq<bv8>, buf: seq<bv8>, count: nat, i: nat): (r: LineState)
    requires |buf| == MaxChars + 1 && count <= i <= MaxChars
    ensures |r.buf| == MaxChars + 1 && r.count <= r.consumed <= MaxChars
    decreases MaxChars - i
  {
    if i == MaxChars || i >= |input| then LineState(buf, count, i)
    else
      var c := input[i];
      var buf' := if c == Backspace || c == Delete || c < Space then buf else buf[count := c];
      var count' := if c == Backspace || c == Delete then (if count > 0 then count - 1 else 0)
                    else if c < Space then count else count + 1;
      if c == Cr || c == Lf then LineState(buf', count', i + 1) else Edit(input, buf', count', i + 1)
  }

  /** One iteration of the character loop. */
  lemma EditStep(input: seq<bv8>, buf: seq<bv8>, count: nat, i: nat)
    requires |buf| == MaxChars + 1 && count <= i < MaxChars && i < |input|
    ensures var c := input[i];
            var buf' := if c == Backspace || c == Delete || c < Space then buf else buf[count := c];
            var count' := if c == Backspace || c == Delete then (if count > 0 then count - 1 else 0)
                          else if c < Space then count else count + 1;
            Edit(input, buf, count, i)
            == if c == Cr || c == Lf then LineState(buf', count', i + 1) else Edit(input, buf', count', i + 1)
  {
  }

  /** Where the loop stops: at most MAX_CHARS characters and never past the
      input; before the last one consumed there is no CR or LF; and unless the
      limit or the end of input stopped it, the last one consumed is a CR or LF. */
  lemma {:induction false} EditStops(input: seq<bv8>, buf: seq<bv8>, count: nat, i: nat)
    requires |buf| == MaxChars + 1 && count <= i <= MaxChars && i <= |input|
    requires forall k :: 0 <= k < i ==> input[k] != Cr && input[k] != Lf
    ensures var r := Edit(input, buf, count, i);
            i <= r.consumed <= |input|
            && (forall k :: 0 <= k < r.consumed - 1 ==> input[k] != Cr && input[k] != Lf)
            && (r.consumed == MaxChars || r.consumed == |input|
                || (0 < r.consumed && (input[r.consumed - 1] == Cr || input[r.consumed - 1] == Lf)))
    decreases MaxChars - i
  {
    if i == MaxChars || i >= |input| {
    } else {
      var c := input[i];
      var buf' := if c == Backspace || c == Delete || c < Space then buf else buf[count := c];
      var count' := if c == Backspace || c == Delete then (if count > 0 then count - 1 else 0)
                    else if c < Space then count else count + 1;
      if c == Cr || c == Lf {
      } else {
        EditStops(input, buf', count', i + 1);
      }
    }
  }

  /** The first `count` bytes of the buffer are the line `Typed` describes. */
  lemma {:induction false} EditKeepsTyped(input: seq<bv8>, buf: seq<bv8>, count: nat, i: nat)
    requires |buf| == MaxChars + 1 && count <= i <= MaxChars && i <= |input|
    requires buf[..count] == Typed(input[..i])
    ensures var r := Edit(input, buf, count, i);
            r.consumed <= |input| && r.buf[..r.count] == Typed(input[..r.consumed])
    decreases MaxChars - i
  {
    if i == MaxChars || i >= |input| {
    } else {
      var c := input[i];
      var buf' := if c == Backspace || c == Delete || c < Space then buf else buf[count := c];
      var count' := if c == Backspace || c == Delete then (if count > 0 then count - 1 else 0)
                    else if c < Space then count else count + 1;
      assert input[..i + 1][..i] == input[..i];
      assert Typed(input[..i + 1]) == Keep(Typed(input[..i]), c);
      assert buf'[..count'] == Typed(input[..i + 1]);
      if c == Cr || c == Lf {
      } else {
        EditKeepsTyped(input, buf', count', i + 1);
      }
    }
  }

  /** A typed line holds only printable characters (no control byte, no DEL). */
  lemma {:induction false} TypedPrintable(cs: seq<bv8>)
    ensures |Typed(cs)| <= |cs|
    ensures forall k :: 0 <= k < |Typed(cs)| ==> Space <= Typed(cs)[k] && Typed(cs)[k] != Delete
  {
    if |cs| > 0 {
      TypedPrintable(cs[..|cs| - 1]);
    }
  }

  // ---------------------------------------------------------------------
  // strtok(buffer, " ") as parseFields uses it (uart0.c:158, 164)
  // ---------------------------------------------------------------------

  /** Length of the word at the start of `s`: up to the first space. */
  function WordLen(s: seq<bv8>): (n: nat)
    ensures n <= |s|
  {
    if |s| == 0 || s[0] == Space then 0 else 1 + WordLen(s[1..])
  }

  /** The tokens successive strtok calls return: delimiter runs are skipped. */
  function Tokens(s: seq<bv8>): seq<seq<bv8>>
  {
    if |s| == 0 then []
    else if s[0] == Space then Tokens(s[1..])
    else [s[..WordLen(s)]] + Tokens(s[WordLen(s)..])
  }

  /** A token as strtok returns it: non-empty and without a delimiter. */
  predicate Word(t: seq<bv8>)
  {
    |t| > 0 && Space !in t
  }

  /** The words joined by single spaces. */
  function Join(ws: seq<seq<bv8>>): seq<bv8>
  {
    if |ws| == 0 then [] else if |ws| == 1 then ws[0] else ws[0] + [Space] + Join(ws[1..])
  }

  lemma {:induction false} WordLenOfWord(t: seq<bv8>, rest: seq<bv8>)
    requires Space !in t && (rest == [] || rest[0] == Space)
    ensures WordLen(t + rest) == |t|
  {
    if |t| > 0 {
      assert (t + rest)[1..] == t[1..] + rest;
      WordLenOfWord(t[1..], rest);
    }
  }

  lemma {:induction false} WordLenStopsAtSpace(s: seq<bv8>)
    ensures forall k :: 0 <= k < WordLen(s) ==> s[k] != Space
    ensures WordLen(s) < |s| ==> s[WordLen(s)] == Space
  {
    if |s| > 0 && s[0] != Space {
      WordLenStopsAtSpace(s[1..]);
    }
  }

  /** Every token is a word. */
  lemma {:induction false} TokensAreWords(s: seq<bv8>)
    ensures forall k :: 0 <= k < |Tokens(s)| ==> Word(Tokens(s)[k])
    decreases |s|
  {
    if |s| == 0 {
    } else if s[0] == Space {
      TokensAreWords(s[1..]);
    } else {
      WordLenStopsAtSpace(s);
      assert WordLen(s) > 0;
      assert Space !in s[..WordLen(s)];
      TokensAreWords(s[WordLen(s)..]);
    }
  }

  /** Splitting words joined by spaces gives the words back. */
  lemma {:induction false} TokensOfJoin(ws: seq<seq<bv8>>)
    requires forall k :: 0 <= k < |ws| ==> Word(ws[k])
    ensures Tokens(Join(ws)) == ws
  {
    if |ws| == 0 {
    } else if |ws| == 1 {
      WordLenOfWord(ws[0], []);
      assert ws[0] + [] == ws[0];
      assert ws[0][WordLen(ws[0])..] == [];
    } else {
      var s := Join(ws);
      var rest := [Space] + Join(ws[1..]);
      assert s == ws[0] + rest;
      WordLenOfWord(ws[0], rest);
      assert s[..|ws[0]|] == ws[0];
      assert s[|ws[0]|..] == rest;
      assert rest[1..] == Join(ws[1..]);
      TokensOfJoin(ws[1..]);
      assert Tokens(rest) == Tokens(Join(ws[1..]));
      assert [ws[0]] + ws[1..] == ws;
    }
  }

  // ---------------------------------------------------------------------
  // IPStrToUint32 (uart0.c:206-251)
  // ---------------------------------------------------------------------

  /** The character at the cursor; the terminating NUL past the end. */
  function At(s: seq<bv8>, p: nat): bv8
  {
    if p < |s| then s[p] else 0
  }

  /** integer = (integer << 8) | val, for an octet value. */
  function ShiftIn(integer: bv32, val: bv8): bv32
  {
    (integer << 8) | val as bv32
  }

  /** The accumulator after the octet values `vals` have been shifted into
      `integer` one after the other. */
  function Accumulate(integer: bv32, vals: seq<bv8>): bv32
    decreases |vals|
  {
    if |vals| == 0 then integer else ShiftIn(Accumulate(integer, vals[..|vals| - 1]), vals[|vals| - 1])
  }

  /** Digits the inner loop reads at most (uart0.c:219). */
  const OctetDigits: nat := 3

  /** The inner digit loop with `left` of its three digits still to read. The
      uint32 `val` never exceeds 999, so it is exact as a `nat`. */
  function ReadOctet(s: seq<bv8>, p: nat, left: nat, val: nat): (r: (nat, nat))
    requires p <= |s|
    ensures p <= r.0 <= |s|
    decreases left
  {
    if left > 0 && IsDigit(At(s, p)) then ReadOctet(s, p + 1, left - 1, val * 10 + (At(s, p) - Zero) as nat)
    else (p, val)
  }

  /** The octet loop with `left` of the four octets still to read, cursor `p`
      and the octet values `vals` shifted in so far: None where the routine
      returns 0, otherwise the final cursor and the values shifted in. */
  function Octets(s: seq<bv8>, p: nat, left: nat, vals: seq<bv8>): Option<(nat, seq<bv8>)>
    requires p <= |s|
    decreases left, 1
  {
    if left == 0 then Some((p, vals))
    else if !IsDigit(At(s, p)) then None
    else
      var (q, val) := ReadOctet(s, p, OctetDigits, 0);
      AfterOctet(s, q, left, vals, val)
  }

  /** The rest of one octet iteration, once the digit loop has left the cursor
      at `q` with the value `val`. */
  function AfterOctet(s: seq<bv8>, q: nat, left: nat, vals: seq<bv8>, val: nat): Option<(nat, seq<bv8>)>
    requires q <= |s| && 0 < left
    decreases left, 0
  {
    if val > 255 then None
    else if At(s, q) == Dot then Octets(s, q + 1, left - 1, vals + [val as bv8])
    else if left == 1 && At(s, q) == 0 then Some((q, vals + [val as bv8]))
    else Octets(s, q, left - 1, vals)
  }


  /** What IPStrToUint32 returns for the string `s` when its uninitialised
      accumulator starts out as `junk`. */
  function IpParse(s: seq<bv8>, junk: bv32): bv32
  {
    match Octets(s, 0, IpAddLength, [])
    case None => 0
    case Some((p, vals)) => if At(s, p) != 0 then 0 else Htonl(Accumulate(junk, vals))
  }

  /** IPStrToUint32, with a cursor over the NUL-terminated string. */
  method IPStrToUint32(s: seq<bv8>, junk: bv32) returns (r: bv32)
    ensures r == IpParse(s, junk)
  {
    var p: nat := 0;
    var c := At(s, p);
    var integer := junk;
    ghost var vals: seq<bv8> := [];
    ghost var left: nat := IpAddLength;
    var j: nat := 0;
    while j < 4
      invariant 0 <= j <= 4 && left == IpAddLength - j && p <= |s| && c == At(s, p) && integer == Accumulate(junk, vals)
      invariant Octets(s, p, left, vals) == Octets(s, 0, IpAddLength, [])
    {
      if !IsDigit(c) {
        return 0;
      }
      ghost var p0 := p;
      var val;
      p, val := DigitLoop(s, p);
      c := At(s, p);
      OctetIteration(s, p0, left, vals, p, val);
      if val > 255 {
        return 0;
      }
      if c == Dot {
        AccumulateNext(junk, vals, val as bv8);
        integer := ShiftIn(integer, val as bv8);
        vals := vals + [val as bv8];
        p := p + 1;
        c := At(s, p);
      } else if j == 3 && c == 0 {
        AccumulateNext(junk, vals, val as bv8);
        integer := ShiftIn(integer, val as bv8);
        vals := vals + [val as bv8];
        break;
      }
      j := j + 1;
      left := left - 1;
    }
    if c != 0 {
      return 0;
    }
    return Htonl(integer);
  }

  /** Shifting one more value in extends the accumulated values by it. */
  lemma AccumulateNext(integer: bv32, vals: seq<bv8>, v: bv8)
    ensures Accumulate(integer, vals + [v]) == ShiftIn(Accumulate(integer, vals), v)
  {
    assert (vals + [v])[..|vals|] == vals;
  }

  /** One iteration of the octet loop: from a digit, read the digit run and
      carry on from where it stops. */
  lemma OctetIteration(s: seq<bv8>, p0: nat, left: nat, vals: seq<bv8>, p: nat, val: nat)
    requires p0 <= |s| && 0 < left && IsDigit(At(s, p0)) && (p, val) == ReadOctet(s, p0, OctetDigits, 0)
    ensures val > 255 ==> Octets(s, p0, left, vals) == None
    ensures val <= 255 && At(s, p) == Dot ==> Octets(s, p0, left, vals) == Octets(s, p + 1, left - 1, vals + [val as bv8])
    ensures val <= 255 && At(s, p) != Dot && left == 1 && At(s, p) == 0 ==> Octets(s, p0, left, vals) == Some((p, vals + [val as bv8]))
    ensures val <= 255 && At(s, p) != Dot && !(left == 1 && At(s, p) == 0) ==> Octets(s, p0, left, vals) == Octets(s, p, left - 1, vals)
  {
  }

  /** The inner loop of IPStrToUint32: reads up to three digits from `p`,
      returning the cursor after them and their decimal value. */
  method DigitLoop(s: seq<bv8>, p0: nat) returns (p: nat, val: nat)
    requires p0 <= |s|
    ensures (p, val) == ReadOctet(s, p0, OctetDigits, 0)
  {
    p, val := p0, 0;
    var c := At(s, p);
    var i: nat := 0;
    while i < 3 && IsDigit(c)
      invariant 0 <= i <= 3 && p0 <= p <= |s| && c == At(s, p)
      invariant ReadOctet(s, p, OctetDigits - i, val) == ReadOctet(s, p0, OctetDigits, 0)
    {
      DigitStep(s, p, OctetDigits - i, val);
      val := val * 10 + (c - Zero) as nat;
      p := p + 1;
      c := At(s, p);
      i := i + 1;
    }
    DigitStop(s, p, OctetDigits - i, val);
  }

  /** The digit loop takes a digit under the cursor while it has digits left. */
  lemma DigitStep(s: seq<bv8>, p: nat, left: nat, val: nat)
    requires p <= |s| && left > 0 && IsDigit(At(s, p))
    ensures p < |s|
    ensures ReadOctet(s, p, left, val) == ReadOctet(s, p + 1, left - 1, val * 10 + (At(s, p) - Zero) as nat)
  {
  }

  /** ... and stops at a non-digit or after its last digit. */
  lemma DigitStop(s: seq<bv8>, p: nat, left: nat, val: nat)
    requires p <= |s| && (left == 0 || !IsDigit(At(s, p)))
    ensures ReadOctet(s, p, left, val) == (p, val)
  {
  }

  /** A decimal octet as it appears in a dotted quad: one to three digits. */
  predicate OctetText(o: seq<bv8>)
  {
    1 <= |o| <= 3 && forall k :: 0 <= k < |o| ==> IsDigit(o[k])
  }

  /** The value of a digit string. */
  function Decimal(o: seq<bv8>): nat
  {
    if |o| == 0 then 0 else Decimal(o[..|o| - 1]) * 10 + (o[|o| - 1] - Zero) as nat
  }

  function Quad(a: seq<bv8>, b: seq<bv8>, c: seq<bv8>, d: seq<bv8>): seq<bv8>
  {
    a + [Dot] + b + [Dot] + c + [Dot] + d
  }

  /** The address a.b.c.d as a host-order uint32. */
  function Pack(a: bv8, b: bv8, c: bv8, d: bv8): bv32
  {
    (a as bv32 << 24) | (b as bv32 << 16) | (c as bv32 << 8) | d as bv32
  }

  /** One more digit of a digit string. */
  lemma DecimalNext(o: seq<bv8>, m: nat)
    requires m < |o|
    ensures Decimal(o[..m + 1]) == Decimal(o[..m]) * 10 + (o[m] - Zero) as nat
  {
    assert o[..m + 1][..m] == o[..m];
  }

  /** Reading a whole octet that sits at `p`: the cursor ends right after it,
      with the octet's value, provided the digit run ends there. */
  lemma {:induction false} ReadOctetOfText(s: seq<bv8>, p: nat, o: seq<bv8>, m: nat)
    requires OctetText(o) && p + |o| <= |s| && s[p..p + |o|] == o && m <= |o|
    requires |o| == 3 || !IsDigit(At(s, p + |o|))
    ensures ReadOctet(s, p + m, OctetDigits - m, Decimal(o[..m])) == (p + |o|, Decimal(o))
    decreases |o| - m
  {
    if m == |o| {
      assert o[..m] == o;
    } else {
      ReadOctetNext(s, p, o, m);
      ReadOctetOfText(s, p, o, m + 1);
    }
  }

  /** One digit of an octet read by the digit loop. */
  lemma ReadOctetNext(s: seq<bv8>, p: nat, o: seq<bv8>, m: nat)
    requires OctetText(o) && p + |o| <= |s| && s[p..p + |o|] == o && m < |o|
    ensures ReadOctet(s, p + m, OctetDigits - m, Decimal(o[..m])) == ReadOctet(s, p + m + 1, OctetDigits - (m + 1), Decimal(o[..m + 1]))
  {
    var c := At(s, p + m);
    assert c == o[m];
    DecimalNext(o, m);
  }

  lemma ReadOctetAt(s: seq<bv8>, p: nat, o: seq<bv8>)
    requires OctetText(o) && p + |o| <= |s| && s[p..p + |o|] == o
    requires |o| == 3 || !IsDigit(At(s, p + |o|))
    ensures ReadOctet(s, p, OctetDigits, 0) == (p + |o|, Decimal(o))
  {
    assert o[..0] == [];
    ReadOctetOfText(s, p, o, 0);
  }

  /** From an octet at `p` whose digit run ends with it, the loop goes on after
      it with the octet's value. */
  lemma WholeOctet(s: seq<bv8>, p: nat, o: seq<bv8>, left: nat, vals: seq<bv8>)
    requires OctetText(o) && left > 0
    requires p + |o| <= |s| && s[p..p + |o|] == o
    requires |o| == 3 || !IsDigit(At(s, p + |o|))
    ensures Octets(s, p, left, vals) == AfterOctet(s, p + |o|, left, vals, Decimal(o))
  {
    assert At(s, p) == o[0];
    ReadOctetAt(s, p, o);
  }

  /** One octet followed by a dot is consumed whole: from cursor `p` the loop
      continues at `q`, past the dot, with the octet's value shifted in. */
  lemma OctetThenDot(s: seq<bv8>, p: nat, o: seq<bv8>, left: nat, vals: seq<bv8>, q: nat, left': nat, vals': seq<bv8>)
    requires OctetText(o) && Decimal(o) <= 255 && left == left' + 1
    requires p + |o| < |s| && s[p..p + |o|] == o && s[p + |o|] == Dot
    requires q == p + |o| + 1 && vals' == vals + [Decimal(o) as bv8]
    ensures Octets(s, p, left, vals) == Octets(s, q, left', vals')
  {
    var r := p + |o|;
    var val := Decimal(o);
    WholeOctet(s, p, o, left, vals);
    assert At(s, r) == Dot;
  }

  /** The last octet, followed by the string's NUL, ends the loop at the NUL
      with the octet's value shifted in. */
  lemma LastOctet(s: seq<bv8>, p: nat, o: seq<bv8>, left: nat, vals: seq<bv8>, q: nat, vals': seq<bv8>)
    requires OctetText(o) && Decimal(o) <= 255 && left == 1
    requires p + |o| <= |s| && s[p..p + |o|] == o && At(s, p + |o|) == 0
    requires q == p + |o| && vals' == vals + [Decimal(o) as bv8]
    ensures Octets(s, p, left, vals) == Some((q, vals'))
  {
    WholeOctet(s, p, o, left, vals);
  }

  /** A last octet followed by anything but the NUL, or by a dot and anything
      but the NUL, ends the loop on a character other than the NUL. */
  lemma LastOctetNotAtEnd(s: seq<bv8>, p: nat, o: seq<bv8>, left: nat, vals: seq<bv8>)
    requires OctetText(o) && Decimal(o) <= 255 && left == 1
    requires p + |o| < |s| && s[p..p + |o|] == o && s[p + |o|] != 0
    requires |o| == 3 || !IsDigit(s[p + |o|])
    requires s[p + |o|] == Dot ==> p + |o| + 1 < |s| && s[p + |o| + 1] != 0
    ensures Octets(s, p, left, vals).Some? && At(s, Octets(s, p, left, vals).value.0) != 0
  {
    WholeOctet(s, p, o, left, vals);
  }

  /** Where the loop ends on the NUL, the routine returns htonl of the accumulator. */
  lemma ParsedWhole(s: seq<bv8>, junk: bv32, q: nat, vals: seq<bv8>)
    requires Octets(s, 0, IpAddLength, []) == Some((q, vals)) && At(s, q) == 0
    ensures IpParse(s, junk) == Htonl(Accumulate(junk, vals))
  {
  }

  /** Where the loop gives up, so does the routine. */
  lemma ParseRejected(s: seq<bv8>, junk: bv32)
    requires Octets(s, 0, IpAddLength, []) == None
    ensures IpParse(s, junk) == 0
  {
  }

  /** OctetThenDot with the new values left unnamed. */
  lemma PastOctet(s: seq<bv8>, p: nat, o: seq<bv8>, left: nat, vals: seq<bv8>, q: nat, left': nat) returns (vals': seq<bv8>)
    requires OctetText(o) && Decimal(o) <= 255 && left == left' + 1
    requires p + |o| < |s| && s[p..p + |o|] == o && s[p + |o|] == Dot && q == p + |o| + 1
    ensures Octets(s, p, left, vals) == Octets(s, q, left', vals')
  {
    vals' := vals + [Decimal(o) as bv8];
    OctetThenDot(s, p, o, left, vals, q, left', vals');
  }

  lemma {:induction false} DecimalBound(o: seq<bv8>)
    requires forall k :: 0 <= k < |o| ==> IsDigit(o[k])
    ensures |o| <= 2 ==> Decimal(o) <= 99
    ensures |o| <= 1 ==> Decimal(o) <= 9
  {
    if |o| > 0 {
      DecimalBound(o[..|o| - 1]);
    }
  }

  /** One octet whose value exceeds 255 makes the routine give up. */
  lemma OctetTooLarge(s: seq<bv8>, p: nat, o: seq<bv8>, left: nat, vals: seq<bv8>)
    requires OctetText(o) && Decimal(o) > 255 && left > 0
    requires p + |o| <= |s| && s[p..p + |o|] == o
    ensures Octets(s, p, left, vals) == None
  {
    DecimalBound(o);
    WholeOctet(s, p, o, left, vals);
  }

  /** Four octet values shifted in fill the whole accumulator: its initial
      contents are gone. */
  lemma AccumulateFour(junk: bv32, a: bv8, b: bv8, c: bv8, d: bv8)
    ensures Accumulate(junk, [a, b, c, d]) == Pack(a, b, c, d)
  {
    AccumulateThree(junk, a, b, c);
    assert [a, b, c, d][..3] == [a, b, c];
    assert Accumulate(junk, [a, b, c, d]) == ShiftIn(Accumulate(junk, [a, b, c]), d);
    ShiftInFour(junk, a, b, c, d);
  }

  lemma ShiftInFour(junk: bv32, a: bv8, b: bv8, c: bv8, d: bv8)
    ensures ShiftIn(ShiftIn(ShiftIn(ShiftIn(junk, a), b), c), d) == Pack(a, b, c, d)
  {
  }

  /** The first three octets and their dots of a dotted quad, with the byte
      values `va` to `vc`, are consumed whole: the loop reaches the fourth
      octet at `p` with those values shifted in. */
  lemma ThreeOctets(s: seq<bv8>, a: seq<bv8>, b: seq<bv8>, c: seq<bv8>, va: bv8, vb: bv8, vc: bv8) returns (p: nat)
    requires OctetText(a) && OctetText(b) && OctetText(c)
    requires Decimal(a) <= 255 && Decimal(b) <= 255 && Decimal(c) <= 255
    requires va == Decimal(a) as bv8 && vb == Decimal(b) as bv8 && vc == Decimal(c) as bv8
    requires |a| + |b| + |c| + 3 <= |s| && s[..|a| + |b| + |c| + 3] == a + [Dot] + b + [Dot] + c + [Dot]
    ensures p == |a| + |b| + |c| + 3
    ensures Octets(s, 0, IpAddLength, []) == Octets(s, p, IpAddLength - 3, [va, vb, vc])
  {
    var pc := |a| + |b| + 2;
    p := pc + |c| + 1;
    PrefixLayout(s, a, b, c);
    var vals2 := TwoOctets(s, a, b, pc, va, vb);
    var vals3 := vals2 + [vc];
    assert vals3 == [va, vb, vc];
    OctetThenDot(s, pc, c, IpAddLength - 2, vals2, p, IpAddLength - 3, vals3);
  }

  /** The first two octets and their dots, placed as in a dotted quad. */
  lemma TwoOctets(s: seq<bv8>, a: seq<bv8>, b: seq<bv8>, pc: nat, va: bv8, vb: bv8) returns (vals: seq<bv8>)
    requires OctetText(a) && OctetText(b) && Decimal(a) <= 255 && Decimal(b) <= 255
    requires va == Decimal(a) as bv8 && vb == Decimal(b) as bv8
    requires pc == |a| + |b| + 2 && pc <= |s|
    requires s[..|a|] == a && s[|a|] == Dot && s[|a| + 1..pc - 1] == b && s[pc - 1] == Dot
    ensures vals == [va, vb]
    ensures Octets(s, 0, IpAddLength, []) == Octets(s, pc, IpAddLength - 2, vals)
  {
    var pb := |a| + 1;
    var vals1 := [va];
    vals := vals1 + [vb];
    assert vals1 == [] + [va];
    OctetThenDot(s, 0, a, IpAddLength, [], pb, IpAddLength - 1, vals1);
    OctetThenDot(s, pb, b, IpAddLength - 1, vals1, pc, IpAddLength - 2, vals);
  }

  /** Where the first three octets and their dots lie in `s`. */
  lemma PrefixLayout(s: seq<bv8>, a: seq<bv8>, b: seq<bv8>, c: seq<bv8>)
    requires |a| + |b| + |c| + 3 <= |s| && s[..|a| + |b| + |c| + 3] == a + [Dot] + b + [Dot] + c + [Dot]
    ensures var pb := |a| + 1; var pc := pb + |b| + 1;
            s[..|a|] == a && s[|a|] == Dot && s[pb..pb + |b|] == b && s[pb + |b|] == Dot
            && s[pc..pc + |c|] == c && s[pc + |c|] == Dot
  {
    var pb := |a| + 1;
    var pc := pb + |b| + 1;
    var n := pc + |c| + 1;
    var p1 := a + [Dot];
    var p2 := p1 + b;
    var p3 := p2 + [Dot];
    var p4 := p3 + c;
    var pre := p4 + [Dot];
    assert s[..n] == pre;
    assert pre[..|p4|] == p4 && p4[..|p3|] == p3 && p3[..|p2|] == p2 && p2[..|p1|] == p1;
    assert pre[..|p2|] == p2 && pre[..|a|] == a;
    PartOfPrefix(s, n, pre, 0, a, a);
    PartOfPrefix(s, n, pre, pb, b, p2);
    PartOfPrefix(s, n, pre, pc, c, p4);
  }

  /** A part `x` that ends the prefix `y` of `pre`, where `pre` is `s[..n]`,
      lies at the same place in `s`. */
  lemma PartOfPrefix(s: seq<bv8>, n: nat, pre: seq<bv8>, off: nat, x: seq<bv8>, y: seq<bv8>)
    requires n <= |s| && s[..n] == pre && |y| <= |pre| && pre[..|y|] == y && |y| == off + |x| && y[off..] == x
    ensures s[off..off + |x|] == x
  {
    assert s[off..off + |x|] == pre[..|y|][off..];
  }

  /** The split of a quad followed by `t` into its first three octets with
      their dots, the fourth octet and `t`. */
  lemma QuadLayout(a: seq<bv8>, b: seq<bv8>, c: seq<bv8>, d: seq<bv8>, t: seq<bv8>)
    ensures var s := Quad(a, b, c, d) + t;
            var p := |a| + |b| + |c| + 3;
            |s| == p + |d| + |t|
            && s[..p] == a + [Dot] + b + [Dot] + c + [Dot]
            && s[p..p + |d|] == d && s[p + |d|..] == t
  {
    var s := Quad(a, b, c, d) + t;
    var pre := a + [Dot] + b + [Dot] + c + [Dot];
    assert s == pre + d + t;
  }

  /** The loop runs through a well-formed dotted quad up to its NUL. */
  lemma QuadOctets(a: seq<bv8>, b: seq<bv8>, c: seq<bv8>, d: seq<bv8>, q: nat, va: bv8, vb: bv8, vc: bv8, vd: bv8)
    requires OctetText(a) && OctetText(b) && OctetText(c) && OctetText(d)
    requires Decimal(a) <= 255 && Decimal(b) <= 255 && Decimal(c) <= 255 && Decimal(d) <= 255
    requires va == Decimal(a) as bv8 && vb == Decimal(b) as bv8 && vc == Decimal(c) as bv8 && vd == Decimal(d) as bv8
    requires q == |a| + |b| + |c| + 3 + |d|
    ensures Octets(Quad(a, b, c, d), 0, IpAddLength, []) == Some((q, [va, vb, vc, vd]))
    ensures At(Quad(a, b, c, d), q) == 0
  {
    var s := Quad(a, b, c, d);
    QuadLayout(a, b, c, d, []);
    assert s + [] == s;
    var p := ThreeOctets(s, a, b, c, va, vb, vc);
    assert At(s, p + |d|) == 0;
    var vals4 := [va, vb, vc] + [vd];
    assert vals4 == [va, vb, vc, vd];
    LastOctet(s, p, d, IpAddLength - 3, [va, vb, vc], q, vals4);
  }

  /** A well-formed dotted quad whose octets have the byte values `va` to `vd`
      parses to htonl of the address va.vb.vc.vd, whatever the uninitialised
      accumulator held. */
  lemma DottedQuad(a: seq<bv8>, b: seq<bv8>, c: seq<bv8>, d: seq<bv8>, junk: bv32, va: bv8, vb: bv8, vc: bv8, vd: bv8)
    requires OctetText(a) && OctetText(b) && OctetText(c) && OctetText(d)
    requires Decimal(a) <= 255 && Decimal(b) <= 255 && Decimal(c) <= 255 && Decimal(d) <= 255
    requires va == Decimal(a) as bv8 && vb == Decimal(b) as bv8 && vc == Decimal(c) as bv8 && vd == Decimal(d) as bv8
    ensures IpParse(Quad(a, b, c, d), junk) == Htonl(Pack(va, vb, vc, vd))
  {
    var q := |a| + |b| + |c| + 3 + |d|;
    QuadOctets(a, b, c, d, q, va, vb, vc, vd);
    ParsedWhole(Quad(a, b, c, d), junk, q, [va, vb, vc, vd]);
    AccumulateFour(junk, va, vb, vc, vd);
  }

  /** In a dotted quad whose first octet is above 255 the loop gives up there. */
  lemma FirstOctetOver255(a: seq<bv8>, b: seq<bv8>, c: seq<bv8>, d: seq<bv8>)
    requires OctetText(a) && Decimal(a) > 255
    ensures Octets(Quad(a, b, c, d), 0, IpAddLength, []) == None
  {
    var s := Quad(a, b, c, d);
    assert s[..|a|] == a;
    OctetTooLarge(s, 0, a, IpAddLength, []);
  }

  /** ... or at a second octet above 255 after a first that fits. */
  lemma SecondOctetOver255(a: seq<bv8>, b: seq<bv8>, c: seq<bv8>, d: seq<bv8>)
    requires OctetText(a) && OctetText(b) && Decimal(a) <= 255 && Decimal(b) > 255
    ensures Octets(Quad(a, b, c, d), 0, IpAddLength, []) == None
  {
    var s := Quad(a, b, c, d);
    var pb := |a| + 1;
    assert s[..|a|] == a && s[|a|] == Dot;
    assert s[pb..pb + |b|] == b;
    var vals1 := PastOctet(s, 0, a, IpAddLength, [], pb, IpAddLength - 1);
    OctetTooLarge(s, pb, b, IpAddLength - 1, vals1);
  }

  /** ... or at a third octet above 255 after two that fit. */
  lemma ThirdOctetOver255(a: seq<bv8>, b: seq<bv8>, c: seq<bv8>, d: seq<bv8>)
    requires OctetText(a) && OctetText(b) && OctetText(c)
    requires Decimal(a) <= 255 && Decimal(b) <= 255 && Decimal(c) > 255
    ensures Octets(Quad(a, b, c, d), 0, IpAddLength, []) == None
  {
    var s := Quad(a, b, c, d);
    var pb := |a| + 1;
    var pc := pb + |b| + 1;
    assert s[..|a|] == a && s[|a|] == Dot;
    assert s[pb..pb + |b|] == b && s[pb + |b|] == Dot;
    assert s[pc..pc + |c|] == c;
    var vals1 := PastOctet(s, 0, a, IpAddLength, [], pb, IpAddLength - 1);
    var vals2 := PastOctet(s, pb, b, IpAddLength - 1, vals1, pc, IpAddLength - 2);
    OctetTooLarge(s, pc, c, IpAddLength - 2, vals2);
  }

  /** ... or at a fourth octet above 255 after three that fit. */
  lemma FourthOctetOver255(a: seq<bv8>, b: seq<bv8>, c: seq<bv8>, d: seq<bv8>)
    requires OctetText(a) && OctetText(b) && OctetText(c) && OctetText(d)
    requires Decimal(a) <= 255 && Decimal(b) <= 255 && Decimal(c) <= 255 && Decimal(d) > 255
    ensures Octets(Quad(a, b, c, d), 0, IpAddLength, []) == None
  {
    var s := Quad(a, b, c, d);
    QuadLayout(a, b, c, d, []);
    assert s + [] == s;
    var va, vb, vc := Decimal(a) as bv8, Decimal(b) as bv8, Decimal(c) as bv8;
    var p := ThreeOctets(s, a, b, c, va, vb, vc);
    OctetTooLarge(s, p, d, IpAddLength - 3, [va, vb, vc]);
  }

  /** A dotted quad with any octet above 255 parses to 0. */
  lemma OctetOver255(a: seq<bv8>, b: seq<bv8>, c: seq<bv8>, d: seq<bv8>, junk: bv32)
    requires OctetText(a) && OctetText(b) && OctetText(c) && OctetText(d)
    requires Decimal(a) > 255 || Decimal(b) > 255 || Decimal(c) > 255 || Decimal(d) > 255
    ensures IpParse(Quad(a, b, c, d), junk) == 0
  {
    if Decimal(a) > 255 {
      FirstOctetOver255(a, b, c, d);
    } else if Decimal(b) > 255 {
      SecondOctetOver255(a, b, c, d);
    } else if Decimal(c) > 255 {
      ThirdOctetOver255(a, b, c, d);
    } else {
      FourthOctetOver255(a, b, c, d);
    }
    ParseRejected(Quad(a, b, c, d), junk);
  }

  /** A first character that is not a digit gives 0. */
  lemma NonDigitStart(s: seq<bv8>, junk: bv32)
    requires !IsDigit(At(s, 0))
    ensures IpParse(s, junk) == 0
  {
  }

  /** Anything after a well-formed quad other than a lone dot gives 0. */
  lemma TrailingRejected(a: seq<bv8>, b: seq<bv8>, c: seq<bv8>, d: seq<bv8>, t: seq<bv8>, junk: bv32)
    requires OctetText(a) && OctetText(b) && OctetText(c) && OctetText(d)
    requires Decimal(a) <= 255 && Decimal(b) <= 255 && Decimal(c) <= 255 && Decimal(d) <= 255
    requires |t| > 0 && 0 !in t && t != [Dot]
    requires |d| == 3 || !IsDigit(t[0])
    ensures IpParse(Quad(a, b, c, d) + t, junk) == 0
  {
    var s := Quad(a, b, c, d) + t;
    QuadLayout(a, b, c, d, t);
    var va, vb, vc := Decimal(a) as bv8, Decimal(b) as bv8, Decimal(c) as bv8;
    var p := ThreeOctets(s, a, b, c, va, vb, vc);
    assert s[p + |d|] == t[0];
    if t[0] == Dot {
      assert |t| > 1 && s[p + |d| + 1] == t[1];
    }
    LastOctetNotAtEnd(s, p, d, IpAddLength - 3, [va, vb, vc]);
  }

  /** The loop runs through a well-formed dotted quad and one dot after it. */
  lemma QuadDotOctets(a: seq<bv8>, b: seq<bv8>, c: seq<bv8>, d: seq<bv8>, q: nat, va: bv8, vb: bv8, vc: bv8, vd: bv8)
    requires OctetText(a) && OctetText(b) && OctetText(c) && OctetText(d)
    requires Decimal(a) <= 255 && Decimal(b) <= 255 && Decimal(c) <= 255 && Decimal(d) <= 255
    requires va == Decimal(a) as bv8 && vb == Decimal(b) as bv8 && vc == Decimal(c) as bv8 && vd == Decimal(d) as bv8
    requires q == |a| + |b| + |c| + 4 + |d|
    ensures Octets(Quad(a, b, c, d) + [Dot], 0, IpAddLength, []) == Some((q, [va, vb, vc, vd]))
    ensures At(Quad(a, b, c, d) + [Dot], q) == 0
  {
    var s := Quad(a, b, c, d) + [Dot];
    QuadLayout(a, b, c, d, [Dot]);
    var p := ThreeOctets(s, a, b, c, va, vb, vc);
    assert s[p + |d|] == Dot;
    var vals4 := [va, vb, vc] + [vd];
    assert vals4 == [va, vb, vc, vd];
    OctetThenDot(s, p, d, IpAddLength - 3, [va, vb, vc], q, IpAddLength - 4, vals4);
  }

  /** A single trailing dot is accepted: "a.b.c.d." parses like "a.b.c.d". */
  lemma TrailingDotAccepted(a: seq<bv8>, b: seq<bv8>, c: seq<bv8>, d: seq<bv8>, junk: bv32, va: bv8, vb: bv8, vc: bv8, vd: bv8)
    requires OctetText(a) && OctetText(b) && OctetText(c) && OctetText(d)
    requires Decimal(a) <= 255 && Decimal(b) <= 255 && Decimal(c) <= 255 && Decimal(d) <= 255
    requires va == Decimal(a) as bv8 && vb == Decimal(b) as bv8 && vc == Decimal(c) as bv8 && vd == Decimal(d) as bv8
    ensures IpParse(Quad(a, b, c, d) + [Dot], junk) == Htonl(Pack(va, vb, vc, vd))
  {
    var q := |a| + |b| + |c| + 4 + |d|;
    QuadDotOctets(a, b, c, d, q, va, vb, vc, vd);
    ParsedWhole(Quad(a, b, c, d) + [Dot], junk, q, [va, vb, vc, vd]);
    AccumulateFour(junk, va, vb, vc, vd);
  }

  /** A run of four digits is split without shifting its first three digits in,
      so "1234.5.6" is accepted and its top byte is the uninitialised accumulator's. */
  lemma FourDigitRunAccepted(junk: bv32)
    ensures IpParse(Str("1234.5.6"), junk) == Htonl((junk << 24) | 0x040506)
  {
    var s := Str("1234.5.6");
    assert s == [49, 50, 51, 52, 46, 53, 46, 54];
    assert ReadOctet(s, 0, OctetDigits, 0) == (3, 123);
    assert ReadOctet(s, 3, OctetDigits, 0) == (4, 4);
    assert ReadOctet(s, 5, OctetDigits, 0) == (6, 5);
    assert ReadOctet(s, 7, OctetDigits, 0) == (8, 6);
    assert Octets(s, 0, IpAddLength, []) == Octets(s, 3, IpAddLength - 1, []);
    assert [] + [4 as bv8] == [4] && [4 as bv8] + [5] == [4, 5] && [4 as bv8, 5] + [6] == [4, 5, 6];
    assert Octets(s, 3, IpAddLength - 1, []) == Octets(s, 5, IpAddLength - 2, [4]);
    assert Octets(s, 5, IpAddLength - 2, [4]) == Octets(s, 7, IpAddLength - 3, [4, 5]);
    assert Octets(s, 7, IpAddLength - 3, [4, 5]) == Some((8, [4, 5, 6]));
    AccumulateThree(junk, 4, 5, 6);
    ShiftInThree(junk, 4, 5, 6);
  }

  /** Three octet values shifted in keep the low byte of the initial accumulator
      as the top byte. */
  lemma AccumulateThree(junk: bv32, a: bv8, b: bv8, c: bv8)
    ensures Accumulate(junk, [a, b, c]) == ShiftIn(ShiftIn(ShiftIn(junk, a), b), c)
  {
    assert [a][..0] == [];
    assert Accumulate(junk, [a]) == ShiftIn(junk, a);
    assert [a, b][..1] == [a];
    assert Accumulate(junk, [a, b]) == ShiftIn(Accumulate(junk, [a]), b);
    assert [a, b, c][..2] == [a, b];
    assert Accumulate(junk, [a, b, c]) == ShiftIn(Accumulate(junk, [a, b]), c);
  }

  lemma ShiftInThree(junk: bv32, a: bv8, b: bv8, c: bv8)
    ensures ShiftIn(ShiftIn(ShiftIn(junk, a), b), c) == (junk << 24) | (a as bv32 << 16) | (b as bv32 << 8) | c as bv32
  {
  }

  /** What the parsed address becomes in USER_DATA.ip through the ipconv union:
      the four octets in order. */
  lemma QuadBytes(a: bv8, b: bv8, c: bv8, d: bv8)
    ensures LE32(Htonl(Pack(a, b, c, d))) == [a, b, c, d]
  {
    HtonlInMemory(Pack(a, b, c, d));
  }

  // ---------------------------------------------------------------------
  // USER_DATA and parseFields (uart0.h:27-36, uart0.c:156-193)
  // ---------------------------------------------------------------------

  /** Capacities of the USER_DATA string fields, NUL included (uart0.h:30-33). */
  const CommandSize: nat := 15
  const TopicSize: nat := 30

  function Publish(): seq<bv8> { Str("publish") }
  function Subscribe(): seq<bv8> { Str("subscribe") }
  function Unsubscribe(): seq<bv8> { Str("unsubscribe") }
  function SetCommand(): seq<bv8> { Str("set") }

  predicate IsTopicCommand(cmd: seq<bv8>)
  {
    cmd == Publish() || cmd == Subscribe() || cmd == Unsubscribe()
  }

  /** Each token parseFields copies fits the field it is copied into. */
  predicate TokensFit(toks: seq<seq<bv8>>)
  {
    |toks| >= 1 && |toks[0]| < CommandSize
    && (IsTopicCommand(toks[0]) ==>
          (|toks| > 1 ==> |toks[1]| < TopicSize)
          && (toks[0] == Publish() && |toks| > 2 ==> |toks[2]| < CommandSize))
    && (!IsTopicCommand(toks[0]) ==> (|toks| > 1 ==> |toks[1]| < CommandSize))
  }

  /** The command line record USER_DATA. Strings are held without their NUL. */
  class UserData {
    var buffer: array<bv8>
    var command: seq<bv8>
    var strParam: seq<bv8>
    var topic: seq<bv8>
    var topicValue: seq<bv8>
    var ip: seq<bv8>
    var valid: bool

    ghost predicate Valid()
      reads this
    {
      buffer.Length == MaxChars + 1 && |ip| == IpAddLength
    }

    constructor ()
      ensures Valid() && fresh(buffer)
      ensures buffer[..] == Fill(MaxChars + 1, 0)
      ensures command == [] && strParam == [] && topic == [] && topicValue == [] && !valid
    {
      buffer := new bv8[MaxChars + 1](_ => 0);
      command, strParam, topic, topicValue := [], [], [], [];
      ip := Fill(IpAddLength, 0);
      valid := false;
      new;
      assert buffer[..] == Fill(MaxChars + 1, 0);
    }

    /** The line in the buffer, up to its NUL. */
    function Line(): seq<bv8>
      reads this, buffer
      requires 0 in buffer[..]
    {
      buffer[..NulIndex(buffer[..])]
    }

    /** getsUart0 reading from `input`: returns how many characters it took and
        what it echoed (each character read, then a newline). */
    method GetsUart0(input: seq<bv8>) returns (consumed: nat, echo: seq<bv8>)
      requires Valid()
      modifies buffer
      ensures Valid() && 0 in buffer[..]
      ensures var r := Edit(input, old(buffer[..]), 0, 0);
              consumed == r.consumed && buffer[..] == LowerString(Put(r.buf, r.count, [0]))
      ensures consumed <= |input| && echo == input[..consumed] + [Lf]
    {
      var count;
      count, consumed, echo := CharacterLoop(input);
      ghost var r := Edit(input, old(buffer[..]), 0, 0);
      buffer[count] := 0;
      ghost var line := buffer[..];
      assert line == Put(r.buf, r.count, [0]);
      assert line[count] == 0;
      ToLowerCase(buffer);
      echo := echo + [Lf];
    }

    /** The character loop of getsUart0: the buffer and the count of kept
        characters it leaves, how many characters it read, and their echo. */
    method CharacterLoop(input: seq<bv8>) returns (count: nat, consumed: nat, echo: seq<bv8>)
      requires Valid()
      modifies buffer
      ensures Valid()
      ensures LineState(buffer[..], count, consumed) == Edit(input, old(buffer[..]), 0, 0)
      ensures consumed <= |input| && echo == input[..consumed]
    {
      count := 0;
      var c: bv8 := 0;
      var i := 0;
      echo := [];
      while i < MaxChars && i < |input| && c != Cr && c != Lf
        invariant 0 <= count <= i <= MaxChars && i <= |input|
        invariant echo == input[..i]
        invariant c != Cr && c != Lf ==> Edit(input, buffer[..], count, i) == Edit(input, old(buffer[..]), 0, 0)
        invariant (c == Cr || c == Lf) ==> LineState(buffer[..], count, i) == Edit(input, old(buffer[..]), 0, 0)
      {
        ghost var buf, count0 := buffer[..], count;
        EditStep(input, buf, count, i);
        c := input[i];
        echo := echo + [c];
        if c == Backspace || c == Delete {
          if count > 0 {
            count := count - 1;
          }
        } else if c < Space {
        } else {
          buffer[count] := c;
          count := count + 1;
        }
        assert buffer[..] == if c == Backspace || c == Delete || c < Space then buf else buf[count0 := c];
        i := i + 1;
      }
      consumed := i;
    }

    /** parseFields, with `junk` the value IPStrToUint32's uninitialised
        accumulator starts from. The NULs strtok writes into the buffer are not
        modelled; the buffer is not used again before the next line is read. */
    method ParseFields(junk: bv32)
      requires Valid() && 0 in buffer[..] && TokensFit(Tokens(Line()))
      modifies this`command, this`strParam, this`topic, this`topicValue, this`ip, this`valid
      ensures Valid() && valid
      ensures var toks := Tokens(Line());
              command == toks[0]
              && (IsTopicCommand(toks[0]) ==>
                    topic == (if |toks| > 1 then toks[1] else old(topic))
                    && topicValue == (if toks[0] == Publish() && |toks| > 2 then toks[2] else old(topicValue))
                    && strParam == old(strParam) && ip == old(ip))
              && (!IsTopicCommand(toks[0]) ==>
                    strParam == (if |toks| > 1 then toks[1] else old(strParam))
                    && ip == (if toks[0] == SetCommand() && |toks| > 2 then LE32(IpParse(toks[2], junk)) else old(ip))
                    && topic == old(topic) && topicValue == old(topicValue))
    {
      var toks := Tokens(Line());
      valid := true;
      command := toks[0];
      var i := 0;
      while i + 1 < |toks|
        invariant 0 <= i && i + 1 <= |toks| && Valid() && valid && command == toks[0]
        invariant IsTopicCommand(toks[0]) ==>
                    topic == (if |toks| > 1 && i > 0 then toks[1] else old(topic))
                    && topicValue == (if toks[0] == Publish() && |toks| > 2 && i > 1 then toks[2] else old(topicValue))
                    && strParam == old(strParam) && ip == old(ip)
        invariant !IsTopicCommand(toks[0]) ==>
                    strParam == (if |toks| > 1 && i > 0 then toks[1] else old(strParam))
                    && ip == (if toks[0] == SetCommand() && |toks| > 2 && i > 1 then LE32(IpParse(toks[2], junk)) else old(ip))
                    && topic == old(topic) && topicValue == old(topicValue)
      {
        var token := toks[i + 1];
        if command == Publish() || command == Subscribe() || command == Unsubscribe() {
          if i == 0 {
            topic := token;
          } else if i == 1 && command == Publish() {
            topicValue := token;
          }
        } else if i == 0 {
          strParam := token;
        } else if i == 1 && command == SetCommand() {
          var addr := IPStrToUint32(token, junk);
          ip := LE32(addr);
        }
        i := i + 1;
      }
    }
  }
}
