/**
  A minimal model of anchored regular expressions (`^...$` without flags):
  exactly the constructs the service's URL pattern uses. `Matches(p, s)`
  is the language-membership question that `String.prototype.match`
  answers for an anchored pattern: whether some way of matching the whole
  of `s` exists; the backtracking order does not affect that answer.
 */
module Regex {
  import opened CharClasses

  /** One member of a bracketed class: the escape `\s` or a literal character. */
  datatype ClassItem = Space | Char(c: char)

  /** A pattern atom that consumes exactly one character. */
  datatype Atom =
    | Lit(c: char)                  // a literal character
    | Dot                           // `.`: anything but a line terminator
    | NoneOf(items: seq<ClassItem>) // a negated class `[^...]`

  /** An atom with its quantifier: `a`, `a?` or `a*`. */
  datatype Term = One(atom: Atom) | Optional(atom: Atom) | Many(atom: Atom)

  predicate InItem(item: ClassItem, c: char) {
    match item
    case Space => IsWs(c)
    case Char(d) => c == d
  }

  predicate Accepts(a: Atom, c: char) {
    match a
    case Lit(d) => c == d
    case Dot => !IsLineTerm(c)
    case NoneOf(items) => forall i | 0 <= i < |items| :: !InItem(items[i], c)
  }

  /** Whether the anchored pattern `^p$` matches the whole of `s`. */
  predicate Matches(p: seq<Term>, s: string)
    decreases |p|, |s|
  {
    if |p| == 0 then |s| == 0
    else
      match p[0]
      case One(a) =>
        |s| > 0 && Accepts(a, s[0]) && Matches(p[1..], s[1..])
      case Optional(a) =>
        (|s| > 0 && Accepts(a, s[0]) && Matches(p[1..], s[1..])) || Matches(p[1..], s)
      case Many(a) =>
        Matches(p[1..], s) || (|s| > 0 && Accepts(a, s[0]) && Matches(p, s[1..]))
  }

  /** The pattern that matches the word `w` literally. */
  function Literal(w: string): seq<Term> {
    seq(|w|, i requires 0 <= i < |w| => One(Lit(w[i])))
  }

  /** A literal word followed by a pattern matches exactly the strings that
      start with the word and continue with something the pattern matches. */
  lemma {:induction false} LiteralThen(w: string, p: seq<Term>, s: string)
    ensures Matches(Literal(w) + p, s) <==> |w| <= |s| && s[..|w|] == w && Matches(p, s[|w|..])
    decreases |w|
  {
    if |w| == 0 {
      assert Literal(w) + p == p;
      assert s[..0] == w;
    } else {
      var q := Literal(w) + p;
      assert q[0] == One(Lit(w[0]));
      assert q[1..] == Literal(w[1..]) + p;
      if |s| > 0 {
        LiteralThen(w[1..], p, s[1..]);
        if |w| <= |s| {
          assert s[1..][|w| - 1..] == s[|w|..];
          assert s[..|w|] == [s[0]] + s[1..][..|w| - 1];
          assert w == [w[0]] + w[1..];
        }
      }
    }
  }

  /** `a*` alone matches exactly the strings every character of which `a` accepts. */
  lemma {:induction false} ManyAlone(a: Atom, s: string)
    ensures Matches([Many(a)], s) <==> forall i | 0 <= i < |s| :: Accepts(a, s[i])
    decreases |s|
  {
    var p := [Many(a)];
    assert p[1..] == [];
    if |s| > 0 {
      ManyAlone(a, s[1..]);
      assert forall i | 1 <= i < |s| :: s[i] == s[1..][i - 1];
    }
  }
}
