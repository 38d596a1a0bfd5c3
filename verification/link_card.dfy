/** The link card (src/components/cards/LinkCard.jsx): the string hash
    that picks one of six background gradients, the key it hashes, and the
    label shown above the title. */
module LinkCard {

  import opened Options

  const TwoTo32: int := 0x1_0000_0000
  const TwoTo31: int := 0x8000_0000

  /** JavaScript's ToInt32 on an integral value: the representative of
      `x` modulo 2^32 in [-2^31, 2^31). */
  function ToInt32(x: int): (r: int)
    ensures -TwoTo31 <= r < TwoTo31
    ensures (x - r) % TwoTo32 == 0
  {
    var m := x % TwoTo32;
    if m >= TwoTo31 then m - TwoTo32 else m
  }

  /** The value of `hash` after the loop has consumed `s`: each step is
      `code + ((hash << 5) - hash)`, where only the shift wraps to 32 bits
      and the addition and subtraction are exact. */
  function LinkHash(s: string): int
    decreases |s|
  {
    if s == [] then 0
    else
      var h := LinkHash(s[..|s| - 1]);
      (s[|s| - 1] as int) + (ToInt32(ToInt32(h) * 32) - h)
  }

  /** The usual polynomial string hash, `31 * h + code`, without wrapping. */
  function PolynomialHash(s: string): int
    decreases |s|
  {
    if s == [] then 0 else 31 * PolynomialHash(s[..|s| - 1]) + (s[|s| - 1] as int)
  }

  lemma MultipleTimes(x: int, k: int)
    requires x % TwoTo32 == 0
    ensures (k * x) % TwoTo32 == 0
  {
    var q := x / TwoTo32;
    assert x == TwoTo32 * q;
    assert k * x == TwoTo32 * (k * q);
  }

  lemma SumOfMultiples(x: int, y: int)
    requires x % TwoTo32 == 0 && y % TwoTo32 == 0
    ensures (x + y) % TwoTo32 == 0
  {
    assert x == TwoTo32 * (x / TwoTo32);
    assert y == TwoTo32 * (y / TwoTo32);
    assert x + y == TwoTo32 * (x / TwoTo32 + y / TwoTo32);
  }

  /** Modulo 2^32 the card's hash is the polynomial hash: the wrapped shift
      minus the old value is 31 times it, up to multiples of 2^32. */
  lemma {:induction false} LinkHashIsPolynomial(s: string)
    ensures (LinkHash(s) - PolynomialHash(s)) % TwoTo32 == 0
  {
    if s != [] {
      var init := s[..|s| - 1];
      var h, p := LinkHash(init), PolynomialHash(init);
      LinkHashIsPolynomial(init);
      var w := ToInt32(ToInt32(h) * 32);
      // w differs from 32 * h by a multiple of 2^32
      assert (ToInt32(h) * 32 - w) % TwoTo32 == 0;
      MultipleTimes(h - ToInt32(h), 32);
      assert 32 * (h - ToInt32(h)) == 32 * h - ToInt32(h) * 32;
      SumOfMultiples(ToInt32(h) * 32 - w, 32 * h - ToInt32(h) * 32);
      MultipleTimes(h - p, 31);
      SumOfMultiples(w - 32 * h, 31 * (h - p)) by {
        assert (w - 32 * h) == -(32 * h - w);
        MultipleTimes(32 * h - w, -1);
      }
      assert LinkHash(s) - PolynomialHash(s) == (w - 32 * h) + 31 * (h - p);
    }
  }

  const Gradients: seq<string> := [
    "bg-gradient-to-br from-zinc-800 to-zinc-950",
    "bg-gradient-to-br from-indigo-900/50 to-zinc-950",
    "bg-gradient-to-br from-slate-800 to-zinc-900",
    "bg-gradient-to-br from-blue-900/30 to-zinc-950",
    "bg-gradient-to-br from-zinc-800/80 to-zinc-950",
    "bg-gradient-to-br from-indigo-950 to-zinc-950"]

  function Abs(x: int): nat {
    if x < 0 then -x else x
  }

  /** `generateGradient`: the first gradient for a falsy key, otherwise
      the one at `|hash| mod 6`. */
  function GenerateGradient(key: Option<string>): (r: string)
    ensures r in Gradients
    ensures !Truthy(key) ==> r == Gradients[0]
    ensures Truthy(key) ==> exists k :: 0 <= k < |Gradients| && r == Gradients[k] && Abs(LinkHash(key.value)) % 6 == k
  {
    if !Truthy(key) then Gradients[0]
    else
      var k := Abs(LinkHash(key.value)) % |Gradients|;
      Gradients[k]
  }

  /** The card's `gradient`: hashed from the domain when truthy, else from
      the title; a card with neither gets the first gradient. */
  function CardGradient(domain: Option<string>, title: Option<string>): (r: string)
    ensures r in Gradients
    ensures Truthy(domain) ==> r == GenerateGradient(domain)
    ensures !Truthy(domain) ==> r == GenerateGradient(title)
    ensures !Truthy(domain) && !Truthy(title) ==> r == Gradients[0]
  {
    GenerateGradient(OrElse(domain, title))
  }

  /** The label above the title: the domain, or `LINK`. */
  function Label(domain: Option<string>): (r: string)
    ensures Truthy(domain) ==> r == domain.value
    ensures !Truthy(domain) ==> r == "LINK"
  {
    if Truthy(domain) then domain.value else "LINK"
  }

  /** A one-character key lands on the gradient its code picks modulo 6. */
  lemma SingleCharacterGradient(c: char)
    ensures GenerateGradient(Some([c])) == Gradients[(c as int) % 6]
  {
    assert [c][..0] == [];
    assert LinkHash([c]) == c as int;
  }
}
