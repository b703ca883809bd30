/** Lists that are only ever appended to, looked at as sets. */
module Lists {

  function ToSet<T>(list: seq<T>): set<T> {
    set x | x in list
  }

  /** `now` extends `before` by a list whose members are exactly `added`. */
  ghost predicate Appended<T>(before: seq<T>, now: seq<T>, added: set<T>) {
    before <= now && ToSet(now[|before|..]) == added
  }

  lemma AppendedTwice<T>(a: seq<T>, b: seq<T>, c: seq<T>, s: set<T>, t: set<T>)
    requires Appended(a, b, s) && Appended(b, c, t)
    ensures Appended(a, c, s + t)
  {
    assert c[|a|..] == b[|a|..] + c[|b|..];
  }

  lemma AppendedExactly<T>(before: seq<T>, added: seq<T>)
    ensures Appended(before, before + added, ToSet(added))
  {
    assert (before + added)[|before|..] == added;
  }

  lemma ToSetSum<T>(a: seq<T>, b: seq<T>)
    ensures ToSet(a + b) == ToSet(a) + ToSet(b)
  {
  }

  lemma ToSetLast<T>(list: seq<T>)
    requires list != []
    ensures ToSet(list) == ToSet(list[..|list| - 1]) + {list[|list| - 1]}
  {
    assert list == list[..|list| - 1] + [list[|list| - 1]];
  }

  /** The list's members are those before its last entry, and that one. */
  lemma LastMember<T>(list: seq<T>)
    requires list != []
    ensures forall x :: x in list <==> x in list[..|list| - 1] || x == list[|list| - 1]
  {
    assert list == list[..|list| - 1] + [list[|list| - 1]];
  }

  lemma Regroup<T>(a: seq<T>, b: seq<T>, c: seq<T>)
    ensures (a + b) + c == a + (b + c)
  {
  }

  /** A list started empty holds what was appended to it. */
  lemma AppendedToEmpty<T>(now: seq<T>, added: set<T>)
    requires Appended([], now, added)
    ensures ToSet(now) == added && (now == [] <==> added == {})
  {
    assert now[0..] == now;
    if now != [] {
      assert now[0] in ToSet(now);
    }
  }

  lemma ToSetPrefix<T>(list: seq<T>, i: nat)
    requires i < |list|
    ensures list[..i + 1] == list[..i] + [list[i]]
    ensures ToSet(list[..i + 1]) == ToSet(list[..i]) + {list[i]}
  {
  }
}
