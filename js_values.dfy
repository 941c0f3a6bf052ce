/**
 * The small part of JavaScript value semantics the bot relies on: JSON values,
 * truthiness (the `a || b` fallbacks), `Number(x)`, `String(x)`, ASCII case
 * conversion, `indexOf(...) !== -1` and, for the list helpers, subsequences.
 */
module JsValues {

  datatype Option<+T> = None | Some(value: T)

  /** A JSON value. `Undefined` stands for a field that is absent from an object;
      `Arr` is an array; `Object` is any other object, whose members no conversion
      here reads. */
  datatype Value = Undefined | Null | Bool(b: bool) | Num(n: int) | Str(s: string) | Arr(items: seq<Value>) | Object

  /** A JSON object, such as one guild's reminder settings. */
  type Record = map<string, Value>

  /** `rec[key]`, which is `undefined` for a missing key. */
  function Field(rec: Record, key: string): (v: Value)
    ensures key !in rec ==> v == Undefined
    ensures key in rec ==> v == rec[key]
  {
    if key in rec then rec[key] else Undefined
  }

  /** JavaScript truthiness: `undefined`, `null`, `false`, `0` and `""` are falsy. */
  predicate Truthy(v: Value) {
    match v
    case Undefined => false
    case Null => false
    case Bool(b) => b
    case Num(n) => n != 0
    case Str(s) => s != ""
    case Arr(_) => true
    case Object => true
  }

  predicate IsDigit(c: char) {
    '0' <= c <= '9'
  }

  predicate AllDigits(s: string) {
    forall i :: 0 <= i < |s| ==> IsDigit(s[i])
  }

  /** `10` to the power `k`. */
  function Pow10(k: nat): (p: nat)
    ensures p >= 1
  {
    if k == 0 then 1 else 10 * Pow10(k - 1)
  }

  /** The value of a string of decimal digits: it has no more digits than `s`. */
  function DecimalValue(s: string): (n: nat)
    requires AllDigits(s)
    ensures s == "" ==> n == 0
    ensures |s| == 1 ==> n == s[0] as int - '0' as int
    ensures n < Pow10(|s|)
  {
    if s == [] then 0
    else DecimalValue(s[..|s| - 1]) * 10 + (s[|s| - 1] as int - '0' as int)
  }

  /** `Number(s)` of a string, read as plain decimal digits; `None` stands for `NaN`. */
  function StringToNumber(s: string): (r: Option<int>)
    ensures s == "" ==> r == Some(0)
    ensures s != "" && AllDigits(s) ==> r == Some(DecimalValue(s))
    ensures s != "" && !AllDigits(s) ==> r == None
  {
    if s == "" then Some(0) else if AllDigits(s) then Some(DecimalValue(s)) else None
  }

  /** `Number(v)`; `None` stands for `NaN`. Strings are read as plain decimal
      digits; signs, fractions, exponents and surrounding blanks are not modelled.
      An array is converted through its `String` form, as `ToPrimitive` does. */
  function ToNumber(v: Value): (r: Option<int>)
    ensures v.Num? ==> r == Some(v.n)
    ensures v.Undefined? || v.Object? ==> r == None
    ensures v == Null || v == Bool(false) || v == Str("") ==> r == Some(0)
    ensures v == Bool(true) ==> r == Some(1)
    ensures v.Str? && v.s != "" && !AllDigits(v.s) ==> r == None
    ensures v.Str? || v.Arr? ==> r == StringToNumber(ToStr(v))
  {
    match v
    case Undefined => None
    case Null => Some(0)
    case Bool(b) => Some(if b then 1 else 0)
    case Num(n) => Some(n)
    case Str(s) => StringToNumber(s)
    case Arr(_) => StringToNumber(ToStr(v))
    case Object => None
  }

  /** The decimal digits of a natural number. */
  function NatToString(n: nat): (s: string)
    ensures |s| >= 1 && AllDigits(s)
    ensures DecimalValue(s) == n
    decreases n
  {
    if n < 10 then [('0' as int + n) as char]
    else
      var prefix := NatToString(n / 10);
      var last := ('0' as int + n % 10) as char;
      assert (prefix + [last])[..|prefix + [last]| - 1] == prefix;
      prefix + [last]
  }

  function IntToString(n: int): string {
    if n < 0 then "-" + NatToString(-n) else NatToString(n)
  }

  /** `String(v)`. An array is `join(",")` of its elements, with `null` and
      `undefined` elements shown as `""`; `ArrayText` states that case. */
  function ToStr(v: Value): (r: string)
    ensures v.Str? ==> r == v.s
    ensures v.Num? && v.n >= 0 ==> r == NatToString(v.n)
    ensures v.Num? && v.n < 0 ==> r == "-" + NatToString(-v.n)
    ensures v.Bool? ==> r == (if v.b then "true" else "false")
    ensures v.Undefined? ==> r == "undefined"
    ensures v.Null? ==> r == "null"
    ensures v.Object? ==> r == "[object Object]"
    decreases v
  {
    match v
    case Undefined => "undefined"
    case Null => "null"
    case Bool(b) => if b then "true" else "false"
    case Num(n) => IntToString(n)
    case Str(s) => s
    case Arr(items) =>
      JoinWithCommas(seq(|items|, i requires 0 <= i < |items| =>
        if items[i].Undefined? || items[i].Null? then "" else ToStr(items[i])))
    case Object => "[object Object]"
  }

  /** How `join` shows one element: `null` and `undefined` as `""`, anything else
      as `String(v)`. */
  function ElementText(v: Value): string {
    if v.Undefined? || v.Null? then "" else ToStr(v)
  }

  /** `Number(String(n))` gives back a natural number `n`. */
  lemma NumberOfString(n: nat)
    ensures ToNumber(Str(ToStr(Num(n)))) == Some(n)
  {
  }

  /** `parts.join(",")`. */
  function JoinWithCommas(parts: seq<string>): (r: string)
    ensures parts == [] ==> r == ""
    ensures |parts| == 1 ==> r == parts[0]
  {
    if parts == [] then ""
    else if |parts| == 1 then parts[0]
    else parts[0] + "," + JoinWithCommas(parts[1..])
  }

  /** Appending a part appends a comma and that part. */
  lemma {:induction false} JoinSnoc(parts: seq<string>, x: string)
    requires parts != []
    ensures JoinWithCommas(parts + [x]) == JoinWithCommas(parts) + "," + x
    decreases |parts|
  {
    if |parts| > 1 {
      assert (parts + [x])[1..] == parts[1..] + [x];
      JoinSnoc(parts[1..], x);
    }
  }

  /** `String` of an array: the empty array is `""`, a one-element array is its
      element's text, and appending an element to a non-empty array appends a
      comma and that element's text. */
  lemma ArrayText(items: seq<Value>, x: Value)
    ensures ToStr(Arr([])) == ""
    ensures ToStr(Arr([x])) == ElementText(x)
    ensures items != [] ==> ToStr(Arr(items + [x])) == ToStr(Arr(items)) + "," + ElementText(x)
  {
    var single := [x];
    assert seq(1, i requires 0 <= i < 1 =>
      if single[i].Undefined? || single[i].Null? then "" else ToStr(single[i])) == [ElementText(x)];
    if items != [] {
      var texts := seq(|items|, i requires 0 <= i < |items| =>
        if items[i].Undefined? || items[i].Null? then "" else ToStr(items[i]));
      var longer := items + [x];
      assert seq(|longer|, i requires 0 <= i < |longer| =>
        if longer[i].Undefined? || longer[i].Null? then "" else ToStr(longer[i])) == texts + [ElementText(x)];
      JoinSnoc(texts, ElementText(x));
    }
  }

  /** Arrays convert through their text: `Number([])` is 0, `Number(["30"])` is 30,
      `String([1, 2])` is `"1,2"`, and `String(["Tank"])` is `"Tank"`. */
  lemma ArrayConversions()
    ensures ToNumber(Arr([])) == Some(0)
    ensures ToNumber(Arr([Str("30")])) == Some(30)
    ensures ToStr(Arr([Num(1), Num(2)])) == "1,2"
    ensures ToStr(Arr([Str("Tank")])) == "Tank"
    ensures ToStr(Arr([Null, Str("a")])) == ",a"
    ensures ToNumber(Arr([Num(1), Num(2)])) == None
  {
    assert "30"[..1] == "3";
    assert ToStr(Arr([Num(1), Num(2)])) == JoinWithCommas(["1", "2"]);
    assert ToStr(Arr([Null, Str("a")])) == JoinWithCommas(["", "a"]);
    assert !AllDigits("1,2")  by { assert !IsDigit("1,2"[1]); }
  }

  function LowerChar(c: char): char {
    if 'A' <= c <= 'Z' then (c as int + 32) as char else c
  }

  function UpperChar(c: char): char {
    if 'a' <= c <= 'z' then (c as int - 32) as char else c
  }

  /** `s.toLowerCase()`, restricted to the ASCII letters. */
  function ToLower(s: string): (r: string)
    ensures |r| == |s|
    ensures forall i :: 0 <= i < |s| ==> r[i] == LowerChar(s[i])
  {
    seq(|s|, i requires 0 <= i < |s| => LowerChar(s[i]))
  }

  /** `s.toUpperCase()`, restricted to the ASCII letters. */
  function ToUpper(s: string): (r: string)
    ensures |r| == |s|
    ensures forall i :: 0 <= i < |s| ==> r[i] == UpperChar(s[i])
  {
    seq(|s|, i requires 0 <= i < |s| => UpperChar(s[i]))
  }

  /** `s.indexOf(sub) !== -1`. */
  predicate Contains(s: string, sub: string)
    decreases |s|
  {
    if |sub| > |s| then false
    else if s[..|sub|] == sub then true
    else Contains(s[1..], sub)
  }

  lemma ConcatAssociative<T>(a: seq<T>, b: seq<T>, c: seq<T>)
    ensures a + b + c == a + (b + c)
  {
  }

  /** `a` is obtained from `b` by deleting elements, keeping the order of the rest. */
  predicate IsSubsequence<T(==)>(a: seq<T>, b: seq<T>)
    decreases |b|
  {
    if a == [] then true
    else if b == [] then false
    else if a[0] == b[0] then IsSubsequence(a[1..], b[1..])
    else IsSubsequence(a, b[1..])
  }

  lemma {:induction false} SubsequenceDropFirst<T>(a: seq<T>, b: seq<T>)
    requires a != [] && IsSubsequence(a, b)
    ensures IsSubsequence(a[1..], b)
    decreases |b|, 1
  {
    if a[1..] != [] {
      if a[0] == b[0] {
        SubsequenceDropFirst(a[1..], b[1..]);
        SubsequenceSkip(a[1..], b);
      } else {
        SubsequenceDropFirst(a, b[1..]);
        SubsequenceSkip(a[1..], b);
      }
    }
  }

  /** Deleting one more element of `b` is allowed. */
  lemma {:induction false} SubsequenceSkip<T>(a: seq<T>, b: seq<T>)
    requires b != [] && IsSubsequence(a, b[1..])
    ensures IsSubsequence(a, b)
    decreases |b|, 0
  {
    if a != [] && a[0] == b[0] {
      SubsequenceDropFirst(a, b[1..]);
    }
  }

  lemma {:induction false} SubsequenceCons<T>(x: T, a: seq<T>, b: seq<T>)
    requires IsSubsequence(a, b)
    ensures IsSubsequence([x] + a, [x] + b)
  {
    assert ([x] + a)[1..] == a;
    assert ([x] + b)[1..] == b;
  }

  lemma {:induction false} SubsequenceElements<T>(a: seq<T>, b: seq<T>)
    requires IsSubsequence(a, b)
    ensures forall x :: x in a ==> x in b
    decreases |b|
  {
    if a != [] {
      if a[0] == b[0] {
        SubsequenceElements(a[1..], b[1..]);
        assert a == [a[0]] + a[1..];
        assert b == [b[0]] + b[1..];
      } else {
        SubsequenceElements(a, b[1..]);
        assert b == [b[0]] + b[1..];
      }
    }
  }

  /** A subsequence of a suffix of `b` is a subsequence of `b`. */
  lemma {:induction false} SubsequenceOfSuffix<T>(a: seq<T>, b: seq<T>, n: nat)
    requires n <= |b| && IsSubsequence(a, b[n..])
    ensures IsSubsequence(a, b)
    decreases n
  {
    if n > 0 {
      assert b[n - 1..][1..] == b[n..];
      SubsequenceSkip(a, b[n - 1..]);
      SubsequenceOfSuffix(a, b, n - 1);
    }
  }

  lemma {:induction false} SubsequenceTransitive<T>(a: seq<T>, b: seq<T>, c: seq<T>)
    requires IsSubsequence(a, b) && IsSubsequence(b, c)
    ensures IsSubsequence(a, c)
    decreases |c|
  {
    if a != [] {
      assert b != [] && c != [];
      if b[0] == c[0] {
        if a[0] == b[0] {
          SubsequenceTransitive(a[1..], b[1..], c[1..]);
        } else {
          SubsequenceTransitive(a, b[1..], c[1..]);
        }
      } else {
        SubsequenceTransitive(a, b, c[1..]);
        SubsequenceSkip(a, c);
      }
    }
  }
}
