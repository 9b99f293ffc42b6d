/**
 * The message a private order request is signed over (`requestOrderApi`).
 * The exchange computes its HMAC over the base64 of this string, so the string
 * must determine the order uniquely: the parser below recovers every field
 * from it, which makes the signing string injective on well-formed orders.
 * The base64 step and the digest themselves are not part of this model.
 */
module Signing {
  import opened Wrappers

  /** The `type` field of an order. */
  datatype Side = Buy | Sell

  function SideName(side: Side): (name: string)
    ensures name == "BUY" || name == "SELL"
  {
    match side
    case Buy => "BUY"
    case Sell => "SELL"
  }

  /** Path of the private order endpoint for a trading pair. */
  function Endpoint(pair: string): string
  {
    "/v1/" + pair + "/order"
  }

  /** Names of the three order parameters, in the order they are written. */
  const QueryKeys: seq<string> := ["amount", "price", "type"]

  /** Strict lexicographic order on strings. */
  predicate LexLess(a: string, b: string)
  {
    if a == [] then b != []
    else if b == [] then false
    else a[0] < b[0] || (a[0] == b[0] && LexLess(a[1..], b[1..]))
  }

  /**
   * The query string: parameters joined by `&`, without `?` and without
   * URL-encoding. `amount` and `price` are the decimal renderings the caller
   * already produced.
   */
  function QueryString(amount: string, price: string, side: Side): (q: string)
    ensures q == QueryKeys[0] + "=" + amount + "&" + QueryKeys[1] + "=" + price + "&" + QueryKeys[2] + "=" + SideName(side)
  {
    "amount=" + amount + "&price=" + price + "&type=" + SideName(side)
  }

  /** The parameters appear in ascending alphabetical order of their names. */
  lemma QueryKeysAscending()
    ensures forall i, j :: 0 <= i < j < |QueryKeys| ==> LexLess(QueryKeys[i], QueryKeys[j])
  {
  }

  predicate IsDigit(c: char)
  {
    '0' <= c <= '9'
  }

  predicate AllDigits(s: string)
  {
    forall i :: 0 <= i < |s| ==> IsDigit(s[i])
  }

  function DigitChar(d: nat): (c: char)
    requires d < 10
    ensures IsDigit(c)
  {
    ('0' as int + d) as char
  }

  function DigitValue(c: char): nat
  {
    if IsDigit(c) then (c as int) - ('0' as int) else 0
  }

  /** Decimal rendering of a non-negative integer, as `${nonce}` gives it. */
  function DecimalString(n: nat): (s: string)
    ensures |s| > 0 && AllDigits(s)
    decreases n
  {
    if n < 10 then [DigitChar(n)] else DecimalString(n / 10) + [DigitChar(n % 10)]
  }

  /** Value of a string of decimal digits. */
  function DecimalValue(s: string): nat
  {
    if s == [] then 0 else DecimalValue(s[..|s| - 1]) * 10 + DigitValue(s[|s| - 1])
  }

  lemma {:induction false} DecimalRoundTrip(n: nat)
    ensures DecimalValue(DecimalString(n)) == n
    decreases n
  {
    var s := DecimalString(n);
    if n < 10 {
      assert s[..|s| - 1] == [];
    } else {
      DecimalRoundTrip(n / 10);
      assert s[..|s| - 1] == DecimalString(n / 10);
      assert DigitValue(s[|s| - 1]) == n % 10;
    }
  }

  /**
   * The string the signature is computed over: endpoint path, nonce, query
   * string, separated by `/`. The nonce is the client's millisecond clock,
   * passed in here.
   */
  function SigningString(pair: string, nonce: nat, amount: string, price: string, side: Side): string
  {
    Endpoint(pair) + "/" + DecimalString(nonce) + "/" + QueryString(amount, price, side)
  }

  /** Splits `s` at the first occurrence of `c`. */
  function SplitAt(s: string, c: char): (r: Option<(string, string)>)
    ensures r.None? <==> c !in s
    ensures r.Some? ==> c !in r.value.0 && s == r.value.0 + [c] + r.value.1
  {
    if s == [] then None
    else if s[0] == c then Some(([], s[1..]))
    else match SplitAt(s[1..], c)
      case None => None
      case Some((before, after)) => Some(([s[0]] + before, after))
  }

  lemma {:induction false} SplitAtFirst(a: string, c: char, b: string)
    requires c !in a
    ensures SplitAt(a + [c] + b, c) == Some((a, b))
  {
    if a == [] {
      assert a + [c] + b == [c] + b;
    } else {
      SplitAtFirst(a[1..], c, b);
      assert (a + [c] + b)[1..] == a[1..] + [c] + b;
      assert [a[0]] + a[1..] == a;
    }
  }

  /** The side named by the `type=` parameter. */
  function ParseType(t: string): Option<Side>
  {
    if t == "type=BUY" then Some(Buy) else if t == "type=SELL" then Some(Sell) else None
  }

  /** Price and side from `price=…&type=…`. */
  function ParsePriceAndType(rest: string): Option<(string, Side)>
  {
    if |rest| < 6 || rest[..6] != "price=" then None
    else match SplitAt(rest[6..], '&')
      case None => None
      case Some((price, tail)) =>
        match ParseType(tail)
        case None => None
        case Some(side) => Some((price, side))
  }

  /** Inverse of `QueryString`. */
  function ParseQuery(q: string): Option<(string, string, Side)>
  {
    if |q| < 7 || q[..7] != "amount=" then None
    else match SplitAt(q[7..], '&')
      case None => None
      case Some((amount, rest)) =>
        match ParsePriceAndType(rest)
        case None => None
        case Some((price, side)) => Some((amount, price, side))
  }

  /** Splitting a concatenation at the length of its first part. */
  lemma SplitConcat(p: string, x: string)
    ensures (p + x)[..|p|] == p && (p + x)[|p|..] == x
  {
  }

  lemma ParseTypeRoundTrip(side: Side)
    ensures ParseType("type=" + SideName(side)) == Some(side)
  {
  }

  lemma ParsePriceAndTypeRoundTrip(price: string, side: Side)
    requires '&' !in price
    ensures ParsePriceAndType("price=" + (price + ['&'] + ("type=" + SideName(side)))) == Some((price, side))
  {
    var tail := "type=" + SideName(side);
    SplitConcat("price=", price + ['&'] + tail);
    SplitAtFirst(price, '&', tail);
    ParseTypeRoundTrip(side);
  }

  lemma QueryRoundTrip(amount: string, price: string, side: Side)
    requires '&' !in amount && '&' !in price
    ensures ParseQuery(QueryString(amount, price, side)) == Some((amount, price, side))
  {
    var rest := "price=" + (price + ['&'] + ("type=" + SideName(side)));
    assert QueryString(amount, price, side) == "amount=" + (amount + ['&'] + rest);
    SplitConcat("amount=", amount + ['&'] + rest);
    SplitAtFirst(amount, '&', rest);
    ParsePriceAndTypeRoundTrip(price, side);
  }

  /** The order fields a signing string carries. */
  datatype SignedOrder = SignedOrder(pair: string, nonce: nat, amount: string, price: string, side: Side)

  /** Inverse of `SigningString`. */
  function ParseSigningString(s: string): Option<SignedOrder>
  {
    if |s| < 4 || s[..4] != "/v1/" then None
    else match SplitAt(s[4..], '/')
      case None => None
      case Some((pair, rest)) =>
        if |rest| < 6 || rest[..6] != "order/" then None
        else match SplitAt(rest[6..], '/')
          case None => None
          case Some((digits, query)) =>
            if digits == [] || !AllDigits(digits) then None
            else match ParseQuery(query)
              case None => None
              case Some((amount, price, side)) =>
                Some(SignedOrder(pair, DecimalValue(digits), amount, price, side))
  }

  /**
   * Every field of the order is recovered from its signing string, provided
   * the pair holds no `/` and the rendered amount and price hold no `&`.
   */
  lemma SigningRoundTrip(pair: string, nonce: nat, amount: string, price: string, side: Side)
    requires '/' !in pair && '&' !in amount && '&' !in price
    ensures ParseSigningString(SigningString(pair, nonce, amount, price, side))
            == Some(SignedOrder(pair, nonce, amount, price, side))
  {
    var digits := DecimalString(nonce);
    var query := QueryString(amount, price, side);
    var rest := "order/" + (digits + ['/'] + query);
    var s := "/v1/" + (pair + ['/'] + rest);
    assert s == SigningString(pair, nonce, amount, price, side);
    SplitConcat("/v1/", pair + ['/'] + rest);
    SplitAtFirst(pair, '/', rest);
    SplitConcat("order/", digits + ['/'] + query);
    SplitAtFirst(digits, '/', query);
    QueryRoundTrip(amount, price, side);
    DecimalRoundTrip(nonce);
  }

  /** Two well-formed orders with the same signing string are the same order. */
  lemma SigningInjective(o1: SignedOrder, o2: SignedOrder)
    requires '/' !in o1.pair && '&' !in o1.amount && '&' !in o1.price
    requires '/' !in o2.pair && '&' !in o2.amount && '&' !in o2.price
    requires SigningString(o1.pair, o1.nonce, o1.amount, o1.price, o1.side)
             == SigningString(o2.pair, o2.nonce, o2.amount, o2.price, o2.side)
    ensures o1 == o2
  {
    SigningRoundTrip(o1.pair, o1.nonce, o1.amount, o1.price, o1.side);
    SigningRoundTrip(o2.pair, o2.nonce, o2.amount, o2.price, o2.side);
  }
}
