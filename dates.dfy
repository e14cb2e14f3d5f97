/** Calendar dates are `YYYY-MM-DD` strings. For strings of that fixed
    shape, comparing the instants they denote is comparing the strings
    character by character, which is the order defined here. */
module DateOrder {

  /** Lexicographic "not later than" on date strings. */
  predicate DateLe(a: string, b: string)
    decreases |a|
  {
    if a == [] then true
    else if b == [] then false
    else if a[0] != b[0] then a[0] < b[0]
    else DateLe(a[1..], b[1..])
  }

  lemma {:induction false} DateLeReflexive(a: string)
    ensures DateLe(a, a)
    decreases |a|
  {
    if a != [] {
      DateLeReflexive(a[1..]);
    }
  }

  /** Any two dates are comparable. */
  lemma {:induction false} DateLeTotal(a: string, b: string)
    ensures DateLe(a, b) || DateLe(b, a)
    decreases |a|
  {
    if a != [] && b != [] && a[0] == b[0] {
      DateLeTotal(a[1..], b[1..]);
    }
  }

  lemma {:induction false} DateLeTransitive(a: string, b: string, c: string)
    requires DateLe(a, b) && DateLe(b, c)
    ensures DateLe(a, c)
    decreases |a|
  {
    if a != [] && b != [] && c != [] && a[0] == b[0] && b[0] == c[0] {
      DateLeTransitive(a[1..], b[1..], c[1..]);
    }
  }

  /** Two dates that are each not later than the other are the same date. */
  lemma {:induction false} DateLeAntisymmetric(a: string, b: string)
    requires DateLe(a, b) && DateLe(b, a)
    ensures a == b
    decreases |a|
  {
    if a != [] && b != [] {
      DateLeAntisymmetric(a[1..], b[1..]);
      assert a == [a[0]] + a[1..] && b == [b[0]] + b[1..];
    }
  }
}
