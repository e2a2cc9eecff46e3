/** Domain names, rule patterns and what it means for a pattern to match a name. */
module Domains {

  /** Labels are case-folded; `labels[0]` is the leftmost one. */
  type Label = string

  datatype Name = Name(labels: seq<Label>, fqdn: bool)

  predicate IsRoot(n: Name) {
    n.labels == [] && n.fqdn
  }

  predicate IsWildcard(n: Name) {
    n.labels != [] && n.labels[0] == "*"
  }

  function BaseName(n: Name): Name {
    if n.labels != [] then Name(n.labels[1..], true) else n
  }

  predicate ZoneOf(zone: Name, n: Name) {
    && |zone.labels| <= |n.labels|
    && n.labels[|n.labels| - |zone.labels|..] == zone.labels
  }

  datatype Pattern =
    | Default(name: Name)
    | Suffix(name: Name)
    | Sub(wildcard: string, name: Name)
    | Full(name: Name)

  /** Glob matching of one label, supplied by a library. */
  type Glob = (string, Label) -> bool

  predicate WildcardMatch(glob: Glob, w: string, l: Label) {
    w == "" || glob(w, l)
  }

  predicate IsMatch(glob: Glob, p: Pattern, n: Name) {
    match p
    case Default(z) => ZoneOf(z, n)
    case Suffix(z) => z.labels != n.labels && ZoneOf(z, n)
    case Sub(w, z) => z.labels == BaseName(n).labels && (n.labels == [] || WildcardMatch(glob, w, n.labels[0]))
    case Full(z) => z.labels == n.labels
  }

  /** The patterns a lookup takes into account: all that match, except that a one-label pattern below the root is
      never tried against the root itself. */
  predicate Accepts(glob: Glob, p: Pattern, n: Name) {
    IsMatch(glob, p, n) && !(p.Sub? && n.labels == [])
  }

  /** Precedence among patterns that match a name: nearest base first; on one base exact, one-label, suffix, default. */
  function Rank(p: Pattern, n: Name): nat
    requires |p.name.labels| <= |n.labels|
  {
    3 * (|n.labels| - |p.name.labels|)
    + match p case Full(_) => 0 case Sub(_, _) => 0 case Suffix(_) => 1 case Default(_) => 2
  }

  /** Whatever pattern is accepted, its name encloses the target. */
  lemma MatchEncloses(glob: Glob, p: Pattern, n: Name)
    requires Accepts(glob, p, n)
    ensures ZoneOf(p.name, n)
  {
    match p
    case Sub(_, z) => assert n.labels[|n.labels| - |z.labels|..] == n.labels[1..];
    case Full(_) => assert n.labels[0..] == n.labels;
    case _ =>
  }

  /** Which fully qualified patterns can hold a given rank for `n`: the ones a walk towards the root probes. */
  lemma RankDeterminesPattern(glob: Glob, p: Pattern, n: Name, d: nat)
    requires Accepts(glob, p, n) && p.name.fqdn && 3 * d <= Rank(p, n) < 3 * d + 3
    ensures d <= |n.labels| && p.name == Name(n.labels[d..], true)
    ensures Rank(p, n) == 3 * d ==> (d == 0 && p.Full?) || (d == 1 && p.Sub?)
    ensures Rank(p, n) == 3 * d + 1 ==> p.Suffix? && d > 0
    ensures Rank(p, n) == 3 * d + 2 ==> p.Default?
  {
    assert |n.labels| - |p.name.labels| == d;
    assert n.labels[0..] == n.labels;
  }
}
