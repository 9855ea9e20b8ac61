/** String interning (src/utils/interned_string.rs).

    The source keeps one process-wide `HashMap<String, Arc<str>>` behind a
    mutex; here the registry is an explicit `Registry` object that callers
    share, and an `Arc<str>` allocation is an `Allocation` object whose
    identity stands for the allocation's address. */
module InternedStrings {

  /** One shared, immutable text allocation (an `Arc<str>`). */
  class Allocation {
    const text: string

    constructor (text: string)
      ensures this.text == text
    {
      this.text := text;
    }
  }

  /** A handle on an allocation; cloning a handle shares the allocation. */
  datatype InternedString = InternedString(alloc: Allocation) {
    function Text(): string {
      alloc.text
    }
  }

  /** The derived `PartialEq`/`Eq`: `Arc<str>` compares the texts, not the pointers. */
  predicate Equal(a: InternedString, b: InternedString): (r: bool)
    ensures a.alloc == b.alloc ==> r
  {
    a.Text() == b.Text()
  }

  /** The derived `PartialOrd`/`Ord`: the lexicographic order of the texts. */
  predicate Less(a: InternedString, b: InternedString): (r: bool)
    ensures r ==> !Equal(a, b)
  {
    LexLess(a.Text(), b.Text())
  }

  /** Lexicographic order on code points, which is the order `str` uses
      (comparing UTF-8 bytes orders strings as comparing code points does). */
  predicate LexLess(x: string, y: string): (r: bool)
    ensures r ==> x != y
  {
    if x == [] then y != []
    else if y == [] then false
    else x[0] < y[0] || (x[0] == y[0] && LexLess(x[1..], y[1..]))
  }

  lemma {:induction false} LexLessTransitive(x: string, y: string, z: string)
    requires LexLess(x, y) && LexLess(y, z)
    ensures LexLess(x, z)
  {
    if x != [] && y != [] && z != [] && x[0] == y[0] == z[0] {
      LexLessTransitive(x[1..], y[1..], z[1..]);
    }
  }

  lemma {:induction false} LexLessTotal(x: string, y: string)
    ensures x == y || LexLess(x, y) || LexLess(y, x)
  {
    if x != [] && y != [] && x[0] == y[0] {
      LexLessTotal(x[1..], y[1..]);
      if x[1..] == y[1..] {
        assert x == [x[0]] + x[1..] && y == [y[0]] + y[1..];
      }
    }
  }

  /** `Equal` and `Less` on handles form a strict total order on texts:
      exactly one of `Equal(a, b)`, `Less(a, b)`, `Less(b, a)` holds, and `Less` is transitive. */
  lemma HandleOrderIsTotal(a: InternedString, b: InternedString, c: InternedString)
    ensures !Less(a, a)
    ensures Equal(a, b) ==> !Less(a, b) && !Less(b, a)
    ensures !Equal(a, b) ==> Less(a, b) || Less(b, a)
    ensures Less(a, b) ==> !Less(b, a)
    ensures Less(a, b) && Less(b, c) ==> Less(a, c)
  {
    LexLessTotal(a.Text(), b.Text());
    if Less(a, b) && Less(b, a) {
      LexLessTransitive(a.Text(), b.Text(), a.Text());
    }
    if Less(a, b) && Less(b, c) {
      LexLessTransitive(a.Text(), b.Text(), c.Text());
    }
  }

  /** The registry invariant: every key maps to an allocation holding exactly that text. */
  ghost predicate Canonical(m: map<string, Allocation>) {
    forall k :: k in m ==> m[k].text == k
  }

  /** `after` keeps every entry of `before` unchanged (nothing removed or replaced). */
  ghost predicate Grows(before: map<string, Allocation>, after: map<string, Allocation>) {
    forall k :: k in before ==> k in after && after[k] == before[k]
  }

  /** `after` is `before` once `h`'s text has been interned and `h` handed out:
      `h` holds the entry for its text, which was either already there or is the one added. */
  ghost predicate InternedInto(before: map<string, Allocation>, after: map<string, Allocation>, h: InternedString) {
    && h.Text() in after
    && after[h.Text()] == h.alloc
    && after == before[h.Text() := h.alloc]
    && (h.Text() in before ==> before[h.Text()] == h.alloc)
  }

  /** In a canonical registry distinct keys map to distinct allocations. */
  lemma CanonicalInjective(m: map<string, Allocation>, k1: string, k2: string)
    requires Canonical(m) && k1 in m && k2 in m
    ensures m[k1] == m[k2] <==> k1 == k2
  {
  }

  /** Handles that a canonical registry holds are equal (by text) exactly when
      they share one allocation. */
  lemma EqualIffSameAllocation(m: map<string, Allocation>, a: InternedString, b: InternedString)
    requires Canonical(m)
    requires a.Text() in m && m[a.Text()] == a.alloc
    requires b.Text() in m && m[b.Text()] == b.alloc
    ensures Equal(a, b) <==> a.alloc == b.alloc
  {
  }

  /** Interning keeps the registry canonical and only grows it; re-interning
      the same text hands out the identical allocation and changes nothing. */
  lemma InternedIntoProperties(m0: map<string, Allocation>, m1: map<string, Allocation>, m2: map<string, Allocation>,
                               h1: InternedString, h2: InternedString)
    requires Canonical(m0) && InternedInto(m0, m1, h1) && InternedInto(m1, m2, h2)
    ensures Canonical(m1) && Grows(m0, m1) && Grows(m1, m2)
    ensures m1.Keys == m0.Keys + {h1.Text()}
    ensures h2.Text() == h1.Text() ==> h2 == h1 && m2 == m1
  {
  }

  lemma {:induction false} GrowsTransitive(m0: map<string, Allocation>, m1: map<string, Allocation>, m2: map<string, Allocation>)
    requires Grows(m0, m1) && Grows(m1, m2)
    ensures Grows(m0, m2)
  {
  }

  /** The registry of canonical allocations (`StringStorage`), as an explicit object. */
  class Registry {
    var strings: map<string, Allocation>

    ghost predicate Valid()
      reads this
    {
      Canonical(strings)
    }

    constructor ()
      ensures Valid() && strings == map[]
    {
      strings := map[];
    }

    /** `InternedString::from_str`: look the text up; on a miss, insert a
        fresh allocation for it. Either way the result holds the registry's
        allocation for the text. */
    method FromStr(s: string) returns (h: InternedString)
      requires Valid()
      modifies this
      ensures Valid()
      ensures h.Text() == s
      ensures s in old(strings) ==> h.alloc == old(strings)[s] && strings == old(strings)
      ensures s !in old(strings) ==> fresh(h.alloc) && strings == old(strings)[s := h.alloc]
      ensures InternedInto(old(strings), strings, h)
    {
      if s in strings {
        return InternedString(strings[s]);
      }
      var v := new Allocation(s);
      strings := strings[s := v];
      h := InternedString(v);
    }

    /** `InternedString::from_string`: the same lookup and insertion for an
        owned string. Dafny strings are values, so the owned and borrowed
        forms coincide and the effect is that of `FromStr`. */
    method FromString(s: string) returns (h: InternedString)
      requires Valid()
      modifies this
      ensures Valid()
      ensures h.Text() == s
      ensures s in old(strings) ==> h.alloc == old(strings)[s] && strings == old(strings)
      ensures s !in old(strings) ==> fresh(h.alloc) && strings == old(strings)[s := h.alloc]
      ensures InternedInto(old(strings), strings, h)
    {
      h := FromStr(s);
    }
  }

  /** Interning one text twice, through either entry point, yields handles on
      the very same allocation and leaves the registry as the first call left it. */
  method InternTwice(r: Registry, s: string) returns (h1: InternedString, h2: InternedString)
    requires r.Valid()
    modifies r
    ensures r.Valid()
    ensures h1.alloc == h2.alloc && Equal(h1, h2)
    ensures s in old(r.strings) ==> r.strings == old(r.strings)
    ensures s !in old(r.strings) ==> r.strings == old(r.strings)[s := h1.alloc]
  {
    h1 := r.FromStr(s);
    h2 := r.FromString(s);
  }
}
