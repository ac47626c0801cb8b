/**
 * The selector patterns of a LiveView variant.
 *
 * A variant named N is registered with two patterns: `.N&` applies the
 * utility when the element itself carries the marker class N, and `.N &`
 * applies it when some ancestor carries it. The `&` is the placeholder the
 * styling engine later replaces with the element's own selector.
 */
module Selectors {

  datatype Option<T> = None | Some(value: T)

  /** Where the marker class must be for the variant to apply. */
  datatype Scope = Self | Ancestor

  /** A pattern read back as the marker class it keys on and its scope. */
  datatype Selector = Selector(marker: string, scope: Scope)

  const Placeholder: char := '&'

  /** Characters allowed in a marker class name here: ASCII letters, digits, `-` and `_`. */
  predicate IsClassChar(c: char) {
    ('a' <= c <= 'z') || ('A' <= c <= 'Z') || ('0' <= c <= '9') || c == '-' || c == '_'
  }

  /** A non-empty marker class name made of ASCII letters, digits, `-` and `_` (so no dot, space or placeholder). */
  predicate IsClassName(name: string) {
    |name| > 0 && forall i :: 0 <= i < |name| ==> IsClassChar(name[i])
  }

  /** `.N&`: the element itself has class N. */
  function SelfPattern(name: string): string {
    "." + name + [Placeholder]
  }

  /** `.N &`: an ancestor of the element has class N. */
  function AncestorPattern(name: string): string {
    "." + name + " " + [Placeholder]
  }

  /** The pattern for one selector. */
  function Render(s: Selector): string {
    match s.scope
    case Self => SelfPattern(s.marker)
    case Ancestor => AncestorPattern(s.marker)
  }

  /** The ordered pattern list a variant named `name` is registered with: self form first. */
  function Patterns(name: string): (ps: seq<string>)
    ensures |ps| == 2
    ensures ps[0] == Render(Selector(name, Self)) && ps[1] == Render(Selector(name, Ancestor))
  {
    [SelfPattern(name), AncestorPattern(name)]
  }

  /**
   * Reads a pattern back: a leading dot, a class name, an optional space and
   * a trailing placeholder. Anything else is not a variant pattern.
   */
  function Parse(p: string): (r: Option<Selector>)
    ensures r.Some? ==> IsClassName(r.value.marker) && Render(r.value) == p
  {
    if |p| >= 2 && p[0] == '.' && p[|p| - 1] == Placeholder then
      var body := p[1..|p| - 1];
      assert p == "." + body + [Placeholder];
      var s := if |body| > 0 && body[|body| - 1] == ' ' then
        assert body == body[..|body| - 1] + " ";
        Selector(body[..|body| - 1], Ancestor)
      else
        Selector(body, Self);
      if IsClassName(s.marker) then Some(s) else None
    else
      None
  }

  /** Number of occurrences of `c` in `s`. */
  function Count(s: string, c: char): nat {
    if s == [] then 0 else (if s[0] == c then 1 else 0) + Count(s[1..], c)
  }

  /** Counting distributes over concatenation. */
  lemma {:induction false} CountAppend(s: string, t: string, c: char)
    ensures Count(s + t, c) == Count(s, c) + Count(t, c)
  {
    if s == [] {
      assert s + t == t;
    } else {
      assert (s + t)[1..] == s[1..] + t;
      CountAppend(s[1..], t, c);
    }
  }

  /** A string without `c` holds it zero times. */
  lemma {:induction false} CountAbsent(s: string, c: char)
    requires forall i :: 0 <= i < |s| ==> s[i] != c
    ensures Count(s, c) == 0
  {
    if s != [] {
      CountAbsent(s[1..], c);
    }
  }

  /** Rendering a class name and parsing it back gives the same selector. */
  lemma ParseRender(s: Selector)
    requires IsClassName(s.marker)
    ensures Parse(Render(s)) == Some(s)
  {
    var p := Render(s);
    match s.scope
    case Self =>
      assert p[1..|p| - 1] == s.marker;
      assert s.marker[|s.marker| - 1] != ' ' by {
        assert IsClassChar(s.marker[|s.marker| - 1]);
      }
    case Ancestor =>
      assert p[1..|p| - 1] == s.marker + " ";
      assert (s.marker + " ")[..|s.marker|] == s.marker;
  }

  /** The two patterns of a variant differ only by one space inserted just before the placeholder. */
  lemma PatternsDifferBySpace(name: string)
    ensures var ps := Patterns(name);
      var k := |ps[0]| - 1;
      0 <= k && ps[0][k] == Placeholder && ps[1] == ps[0][..k] + " " + ps[0][k..]
  {
    var ps := Patterns(name);
    var k := |ps[0]| - 1;
    assert ps[0][..k] == "." + name;
    assert ps[0][k..] == [Placeholder];
  }

  /** For a class name, each pattern holds exactly one placeholder, as its last character. */
  lemma PlaceholderOnceAtEnd(name: string, i: nat)
    requires IsClassName(name) && i < 2
    ensures var p := Patterns(name)[i];
      |p| > 0 && p[|p| - 1] == Placeholder && Count(p, Placeholder) == 1
  {
    var p := Patterns(name)[i];
    assert IsClassChar(Placeholder) == false;
    CountAbsent(name, Placeholder);
    CountAbsent(".", Placeholder);
    CountAbsent(" ", Placeholder);
    CountAbsent([], Placeholder);
    CountAppend(".", name, Placeholder);
    if i == 0 {
      CountAppend("." + name, [Placeholder], Placeholder);
    } else {
      CountAppend("." + name, " ", Placeholder);
      CountAppend("." + name + " ", [Placeholder], Placeholder);
    }
  }

  /** Distinct class names never share a pattern: a pattern determines its marker and scope. */
  lemma PatternsDetermineMarker(a: string, b: string, i: nat, j: nat)
    requires IsClassName(a) && IsClassName(b) && i < 2 && j < 2
    requires Patterns(a)[i] == Patterns(b)[j]
    ensures a == b && i == j
  {
    var sa := Selector(a, if i == 0 then Self else Ancestor);
    var sb := Selector(b, if j == 0 then Self else Ancestor);
    ParseRender(sa);
    ParseRender(sb);
  }
}
