/** The order `ORDER BY` puts column values in. Ascending order puts NULL
    after every other value and descending order puts it first, as Postgres
    does by default; strings compare character by character (the "C"
    collation). Values of different kinds never share a column in the store,
    so the order between kinds only has to be fixed, not meaningful. */
module Order {
  import opened Js

  function Rank(v: JsVal): nat
  {
    match v
    case Bool(_) => 0
    case Num(_) => 1
    case Str(_) => 2
    case Arr(_) => 3
    case Null => 4
    case Undefined => 4
  }

  /** Lexicographic order on strings. */
  predicate StrLe(s: string, t: string)
  {
    s == [] || (t != [] && (s[0] < t[0] || (s[0] == t[0] && StrLe(s[1..], t[1..]))))
  }

  /** `a` may come before `b` in ascending order. */
  predicate Le(a: JsVal, b: JsVal)
  {
    if Rank(a) != Rank(b) then Rank(a) < Rank(b)
    else if a.Bool? && b.Bool? then !a.b || b.b
    else if a.Num? && b.Num? then a.n <= b.n
    else if a.Str? && b.Str? then StrLe(a.s, b.s)
    else true
  }

  lemma {:induction false} StrLeTotal(s: string, t: string)
    ensures StrLe(s, t) || StrLe(t, s)
  {
    if s != [] && t != [] && s[0] == t[0] {
      StrLeTotal(s[1..], t[1..]);
    }
  }

  lemma {:induction false} StrLeTransitive(s: string, t: string, u: string)
    requires StrLe(s, t) && StrLe(t, u)
    ensures StrLe(s, u)
  {
    if s != [] && t != [] && u != [] && s[0] == t[0] == u[0] {
      StrLeTransitive(s[1..], t[1..], u[1..]);
    }
  }

  /** Any two values can be ordered. */
  lemma LeTotal(a: JsVal, b: JsVal)
    ensures Le(a, b) || Le(b, a)
  {
    if a.Str? && b.Str? {
      StrLeTotal(a.s, b.s);
    }
  }

  lemma LeTransitive(a: JsVal, b: JsVal, c: JsVal)
    requires Le(a, b) && Le(b, c)
    ensures Le(a, c)
  {
    if a.Str? && b.Str? && c.Str? {
      StrLeTransitive(a.s, b.s, c.s);
    }
  }

  lemma LeReflexive(a: JsVal)
    ensures Le(a, a)
  {
    if a.Str? {
      StrLeReflexive(a.s);
    }
  }

  lemma {:induction false} StrLeReflexive(s: string)
    ensures StrLe(s, s)
  {
    if s != [] {
      StrLeReflexive(s[1..]);
    }
  }

  /** NULL sorts after every value in ascending order. */
  lemma NullLast(a: JsVal)
    ensures Le(a, Null)
    ensures Le(Null, a) ==> a == Null || a == Undefined
  {
  }
}
