/**
 * The browser's cookie jar as `document.cookie` shows it to one page: assigning a
 * `name=value` text stores or deletes one cookie (section 5.2 of RFC 6265), and reading
 * gives every cookie as `name=value`, joined by "; " (section 5.4 of RFC 6265).
 */
module Cookies {
  import opened Wrappers
  import opened Strings

  datatype Cookie = Cookie(name: string, value: string)

  /** The jar's content: cookie names in creation order, and the value of each. */
  datatype Jar = Jar(order: seq<string>, values: map<string, string>)

  predicate Distinct(s: seq<string>)
  {
    forall i, k :: 0 <= i < k < |s| ==> s[i] != s[k]
  }

  /** A name the parser of section 5.2 of RFC 6265 can produce: non-empty, trimmed, without ';' or '='. */
  predicate ValidName(n: string)
  {
    n != [] && ';' !in n && '=' !in n && IsTrimmed(n)
  }

  /** What the parser of section 5.2 of RFC 6265 lets into the jar: a valid name and a trimmed value without ';'. */
  predicate WellFormed(c: Cookie)
  {
    ValidName(c.name) && ';' !in c.value && IsTrimmed(c.value)
  }

  /** Each name once, the order and the values agree, and every cookie is well formed. */
  predicate Valid(j: Jar)
  {
    && Distinct(j.order)
    && (forall n :: n in j.order ==> n in j.values)
    && (forall n :: n in j.values ==> n in j.order)
    && (forall n :: n in j.values ==> WellFormed(Cookie(n, j.values[n])))
  }

  /**
   * Section 5.2 of RFC 6265: the name-value pair is the text before the first ';', the name
   * is what precedes its first '=', both are trimmed, and a text without '=' or with an
   * empty name is ignored.
   */
  function ParseCookie(text: string): (r: Option<Cookie>)
    ensures r.Some? ==> WellFormed(r.value)
  {
    var pair := UpTo(text, ';');
    var eq := IndexOf(pair, '=');
    if eq == |pair| then None
    else
      var name := Trim(pair[..eq]);
      var value := Trim(pair[eq + 1..]);
      TrimWithout(pair[..eq], ';');
      TrimWithout(pair[..eq], '=');
      TrimWithout(pair[eq + 1..], ';');
      if name == [] then None else Some(Cookie(name, value))
  }

  /**
   * A cookie text `name=value` followed by attributes is read as that name, with the value
   * cut at its first ';' and trimmed; a well-formed value therefore comes back unchanged.
   */
  lemma ParsePair(text: string, name: string, value: string, attributes: string)
    requires text == name + "=" + value + attributes
    requires ValidName(name)
    requires attributes == [] || attributes[0] == ';'
    ensures ParseCookie(text) == Some(Cookie(name, Trim(UpTo(value, ';'))))
    ensures WellFormed(Cookie(name, value)) ==> ParseCookie(text) == Some(Cookie(name, value))
  {
    var pair := name + "=" + UpTo(value, ';');
    PairOf(text, name, value, attributes);
    NameOf(pair, name, UpTo(value, ';'));
  }

  /** The name-value pair of such a text is the name, '=' and the value up to its first ';'. */
  lemma PairOf(text: string, name: string, value: string, attributes: string)
    requires text == name + "=" + value + attributes
    requires ';' !in name
    requires attributes == [] || attributes[0] == ';'
    ensures UpTo(text, ';') == name + "=" + UpTo(value, ';')
  {
    var head := name + "=";
    assert text == head + (value + attributes);
    UpToBefore(value, ';', attributes);
    UpToAfter(head, ';', value + attributes);
  }

  /** In a pair `name=rest` whose name holds no '=', the first '=' follows the name. */
  lemma NameOf(pair: string, name: string, rest: string)
    requires pair == name + "=" + rest
    requires '=' !in name
    ensures IndexOf(pair, '=') == |name|
    ensures pair[..|name|] == name && pair[|name| + 1..] == rest
  {
    IndexOfAfter(name, '=', "=" + rest);
    assert pair == name + ("=" + rest);
  }

  /** Keeps the names of `s` that are not in `d`, in their order. */
  function FilterOut(s: seq<string>, d: set<string>): (r: seq<string>)
    ensures forall n :: n in r <==> n in s && n !in d
    ensures Distinct(s) ==> Distinct(r)
  {
    if s == [] then []
    else
      var rest := FilterOut(s[1..], d);
      assert Distinct(s) ==> Distinct(s[1..]) && s[0] !in s[1..];
      if s[0] in d then rest else [s[0]] + rest
  }

  /** Filtering a concatenation filters each part and keeps them in order, so the kept names keep their relative order. */
  lemma {:induction false} FilterOutAppend(a: seq<string>, b: seq<string>, d: set<string>)
    ensures FilterOut(a + b, d) == FilterOut(a, d) + FilterOut(b, d)
  {
    if a == [] {
      assert a + b == b;
    } else {
      var t := a[1..];
      assert (a + b)[0] == a[0] && (a + b)[1..] == t + b;
      FilterOutAppend(t, b, d);
      var ft, fb := FilterOut(t, d), FilterOut(b, d);
      if a[0] !in d {
        assert [a[0]] + (ft + fb) == ([a[0]] + ft) + fb;
      }
    }
  }

  lemma {:induction false} FilterOutTwice(s: seq<string>, d: set<string>, e: set<string>)
    ensures FilterOut(FilterOut(s, d), e) == FilterOut(s, d + e)
  {
    if s != [] {
      FilterOutTwice(s[1..], d, e);
      var rest := FilterOut(s[1..], d);
      if s[0] !in d {
        assert ([s[0]] + rest)[1..] == rest;
      }
    }
  }

  /** The jar with every cookie named in `d` deleted. */
  function Removed(j: Jar, d: set<string>): (r: Jar)
    ensures Valid(j) ==> Valid(r)
    ensures forall n :: n in r.values <==> n in j.values && n !in d
    ensures forall n :: n in r.values ==> r.values[n] == j.values[n]
  {
    Jar(FilterOut(j.order, d), j.values - d)
  }

  lemma {:induction false} FilterOutNothing(s: seq<string>)
    ensures FilterOut(s, {}) == s
  {
    if s != [] {
      FilterOutNothing(s[1..]);
      assert s == [s[0]] + s[1..];
    }
  }

  lemma RemovedNothing(j: Jar)
    ensures Removed(j, {}) == j
  {
    FilterOutNothing(j.order);
    assert j.values - {} == j.values;
  }

  lemma RemovedTwice(j: Jar, d: set<string>, e: set<string>)
    ensures Removed(Removed(j, d), e) == Removed(j, d + e)
  {
    FilterOutTwice(j.order, d, e);
    MinusTwice(j.values, d, e);
  }

  lemma MinusTwice(m: map<string, string>, d: set<string>, e: set<string>)
    ensures (m - d) - e == m - (d + e)
  {
  }

  /** The jar after storing `c`: a new name goes last, a known name keeps its place and takes the new value. */
  function Stored(j: Jar, c: Cookie): (r: Jar)
    ensures Valid(j) && WellFormed(c) ==> Valid(r)
  {
    if c.name in j.values then Jar(j.order, j.values[c.name := c.value])
    else
      var order := j.order + [c.name];
      assert Distinct(j.order) && c.name !in j.order ==> Distinct(order);
      Jar(order, j.values[c.name := c.value])
  }

  /** `document.cookie = text` with a max-age: a cookie whose max-age is not positive is deleted, any other stored. */
  function Assigned(j: Jar, text: string, maxAge: int): (r: Jar)
    ensures Valid(j) ==> Valid(r)
  {
    match ParseCookie(text)
    case None => j
    case Some(c) => if maxAge <= 0 then Removed(j, {c.name}) else Stored(j, c)
  }

  /** A text that parses, assigned with a positive max-age, sets that cookie's value. */
  lemma AssignedStores(j: Jar, text: string, maxAge: int, c: Cookie)
    requires ParseCookie(text) == Some(c) && maxAge > 0
    ensures Assigned(j, text, maxAge).values == j.values[c.name := c.value]
  {
  }

  /** A text that parses, assigned with a max-age that is not positive, deletes that cookie. */
  lemma AssignedDeletes(j: Jar, text: string, maxAge: int, c: Cookie)
    requires ParseCookie(text) == Some(c) && maxAge <= 0
    ensures Assigned(j, text, maxAge) == Removed(j, {c.name})
  {
  }

  /** The decimal digits of `n`, as a template literal writes a whole number. */
  function Decimal(n: nat): (r: string)
    ensures r != [] && forall i :: 0 <= i < |r| ==> '0' <= r[i] <= '9'
  {
    var last := (48 + n % 10) as char;
    if n < 10 then [last] else Decimal(n / 10) + [last]
  }

  /** The whole number a text of decimal digits stands for. */
  function DecimalValue(s: string): nat
    requires forall i :: 0 <= i < |s| ==> '0' <= s[i] <= '9'
  {
    if s == [] then 0 else DecimalValue(s[..|s| - 1]) * 10 + (s[|s| - 1] as int - 48)
  }

  /** Reading the digits back gives the number written. */
  lemma {:induction false} DecimalRoundTrip(n: nat)
    ensures DecimalValue(Decimal(n)) == n
  {
    var r := Decimal(n);
    if n >= 10 {
      DecimalRoundTrip(n / 10);
      assert r[..|r| - 1] == Decimal(n / 10);
    }
  }

  /** Writing one more digit after a number's digits writes the number ten times larger plus that digit. */
  lemma DecimalSnoc(n: nat, d: nat)
    requires n > 0 && d < 10
    ensures Decimal(10 * n + d) == Decimal(n) + [(48 + d) as char]
  {
    assert (10 * n + d) / 10 == n && (10 * n + d) % 10 == d;
  }

  /** The attribute text that gives a cookie the max-age `maxAge` for the whole site. */
  function MaxAgeAttributes(maxAge: nat): string
  {
    "; max-age=" + Decimal(maxAge) + "; path=/"
  }

  /** The max-age an attribute text starting with `; max-age=` sets: its digits up to the next ';'. */
  function MaxAgeOf(attributes: string): Option<nat>
  {
    var key := "; max-age=";
    if |attributes| < |key| || attributes[..|key|] != key then None
    else
      var digits := UpTo(attributes[|key|..], ';');
      if digits != [] && forall i :: 0 <= i < |digits| ==> '0' <= digits[i] <= '9'
      then Some(DecimalValue(digits)) else None
  }

  /** The attribute text written for a max-age sets exactly that max-age. */
  lemma MaxAgeRoundTrip(maxAge: nat)
    ensures MaxAgeOf(MaxAgeAttributes(maxAge)) == Some(maxAge)
  {
    var key, digits := "; max-age=", Decimal(maxAge);
    var attributes := key + digits + "; path=/";
    assert attributes[..|key|] == key;
    assert attributes[|key|..] == digits + "; path=/";
    UpToBefore(digits, ';', "; path=/");
    assert ';' !in digits by {
      forall i | 0 <= i < |digits| ensures digits[i] != ';' { }
    }
    DecimalRoundTrip(maxAge);
  }

  /** The texts assigned one after another, all with the same max-age. */
  function AssignedAll(j: Jar, texts: seq<string>, maxAge: int): (r: Jar)
    ensures Valid(j) ==> Valid(r)
  {
    if texts == [] then j
    else Assigned(AssignedAll(j, texts[..|texts| - 1], maxAge), texts[|texts| - 1], maxAge)
  }

  /** The text of the i-th cookie in `document.cookie`, separator space included. */
  function Piece(j: Jar, i: nat): (p: string)
    requires Valid(j) && i < |j.order|
    ensures ';' !in p
  {
    var n := j.order[i];
    assert n in j.order;
    assert WellFormed(Cookie(n, j.values[n]));
    (if i == 0 then "" else " ") + n + "=" + j.values[n]
  }

  /** The cookies' texts, one per cookie, in jar order. */
  function Pieces(j: Jar): (ps: seq<string>)
    requires Valid(j)
    ensures |ps| == |j.order|
    ensures forall i :: 0 <= i < |ps| ==> ps[i] == Piece(j, i)
  {
    seq(|j.order|, i requires 0 <= i < |j.order| => Piece(j, i))
  }

  /** Reading `document.cookie`: every cookie as `name=value`, in jar order, joined by "; ". */
  function Header(j: Jar): string
    requires Valid(j)
  {
    if j.order == [] then "" else Join(Pieces(j), ';')
  }

  /** Splitting `document.cookie` on ';' gives back one piece per cookie. */
  lemma HeaderSplit(j: Jar)
    requires Valid(j) && j.order != []
    ensures Split(Header(j), ';') == Pieces(j)
  {
    var ps := Pieces(j);
    forall p | p in ps
      ensures ';' !in p
    {
      var i :| 0 <= i < |ps| && ps[i] == p;
    }
    SplitJoin(ps, ';');
  }

  /** The browser's cookie jar for the page; `document.cookie` reads and assigns it. */
  class CookieJar {
    var order: seq<string>
    var values: map<string, string>

    /** A jar with no cookies, which is valid. */
    constructor()
      ensures State() == Jar([], map[]) && Valid(State())
    {
      order := [];
      values := map[];
    }

    function State(): Jar
      reads this
    {
      Jar(order, values)
    }

    /** Reading `document.cookie`. */
    function Read(): string
      reads this
      requires Valid(State())
    {
      Header(State())
    }

    /** `document.cookie = text`, the attributes after the pair reduced to their max-age. */
    method Assign(text: string, maxAge: int)
      modifies this
      ensures State() == Assigned(old(State()), text, maxAge)
    {
      var parsed := ParseCookie(text);
      if parsed.Some? {
        var c := parsed.value;
        if maxAge <= 0 {
          order := FilterOut(order, {c.name});
          values := values - {c.name};
        } else {
          if c.name !in values {
            order := order + [c.name];
          }
          values := values[c.name := c.value];
        }
      }
    }
  }
}
