/**
 * `getFilteredCertificates` of both front ends: the in-memory list narrowed by
 * the category tab (or the sentinel `all`) and then by a case-insensitive
 * search in name, issuer and notes. The two client record types differ, so the
 * filter is generic over a projection onto the four fields it reads.
 */
module Listing {

  /** `toLowerCase`, on ASCII letters. */
  function Lower(s: string): (r: string)
    ensures |r| == |s|
    ensures forall i :: 0 <= i < |s| ==> r[i] == LowerChar(s[i])
  {
    if s == [] then [] else [LowerChar(s[0])] + Lower(s[1..])
  }

  function LowerChar(c: char): char
  {
    if 'A' <= c <= 'Z' then (c as int + 32) as char else c
  }

  /** `t` occurs in `s` starting at position `k`. */
  predicate OccursAt(s: string, t: string, k: int)
  {
    0 <= k && k + |t| <= |s| && s[k..k + |t|] == t
  }

  /** `s.includes(t)`, scanning from the left. */
  predicate Includes(s: string, t: string)
  {
    |t| <= |s| && (s[..|t|] == t || Includes(s[1..], t))
  }

  lemma {:induction false} IncludesIffOccurs(s: string, t: string)
    ensures Includes(s, t) <==> exists k :: OccursAt(s, t, k)
  {
    if |t| <= |s| {
      if s[..|t|] == t {
        assert OccursAt(s, t, 0);
      } else {
        IncludesIffOccurs(s[1..], t);
        if exists k :: OccursAt(s[1..], t, k) {
          var k :| OccursAt(s[1..], t, k);
          assert s[1..][k..k + |t|] == s[k + 1..k + 1 + |t|];
          assert OccursAt(s, t, k + 1);
        }
        if exists k :: OccursAt(s, t, k) {
          var k :| OccursAt(s, t, k);
          assert k != 0;
          assert s[1..][k - 1..k - 1 + |t|] == s[k..k + |t|];
          assert OccursAt(s[1..], t, k - 1);
        }
      }
    }
  }

  /** `a` is `b` with some elements left out, the rest in their original order. */
  predicate IsSubsequence<T(==)>(a: seq<T>, b: seq<T>)
  {
    a == [] || (b != [] && ((a[0] == b[0] && IsSubsequence(a[1..], b[1..])) || IsSubsequence(a, b[1..])))
  }

  /** `Array.prototype.filter`: the elements of `s` that `keep` accepts, in order. */
  function Select<T(==,!new)>(s: seq<T>, keep: T -> bool): (r: seq<T>)
    ensures IsSubsequence(r, s)
    ensures forall x :: x in r ==> keep(x)
    ensures forall x :: multiset(r)[x] == if keep(x) then multiset(s)[x] else 0
  {
    if s == [] then []
    else
      assert s == [s[0]] + s[1..];
      if keep(s[0]) then [s[0]] + Select(s[1..], keep) else Select(s[1..], keep)
  }

  /** The fields of a record that the listing filter reads. */
  datatype View = View(category: string, name: string, issuer: string, notes: string)

  predicate InCategory(v: View, filter: string)
  {
    filter == "all" || v.category == filter
  }

  /** The search predicate for an already lower-cased term; `notes && ...` is
      false for empty notes, which `includes` would also give for a non-empty term. */
  predicate MatchesTerm(v: View, term: string)
  {
    Includes(Lower(v.name), term) || Includes(Lower(v.issuer), term) ||
    (v.notes != [] && Includes(Lower(v.notes), term))
  }

  /** Whether a record is shown for the category tab `filter` and the search box text `search`. */
  predicate Shown(v: View, filter: string, search: string)
  {
    InCategory(v, filter) && (Lower(search) == [] || MatchesTerm(v, Lower(search)))
  }

  /** `getFilteredCertificates`: the category pass, then the search pass. */
  function FilteredCertificates<T(==,!new)>(certificates: seq<T>, view: T -> View, filter: string, search: string): (r: seq<T>)
    ensures IsSubsequence(r, certificates)
    ensures forall x :: x in r ==> Shown(view(x), filter, search)
    ensures forall x :: multiset(r)[x] == if Shown(view(x), filter, search) then multiset(certificates)[x] else 0
    ensures filter == "all" && search == [] ==> r == certificates
  {
    var byCategory := if filter != "all" then Select(certificates, c => view(c).category == filter) else certificates;
    var term := Lower(search);
    var r := if term != [] then Select(byCategory, c => MatchesTerm(view(c), term)) else byCategory;
    SubsequenceReflexive(certificates);
    SubsequenceReflexive(byCategory);
    SubsequenceTransitive(r, byCategory, certificates);
    r
  }

  lemma {:induction false} SubsequenceReflexive<T>(a: seq<T>)
    ensures IsSubsequence(a, a)
  {
    if a != [] {
      SubsequenceReflexive(a[1..]);
    }
  }

  lemma {:induction false} SubsequenceTransitive<T>(a: seq<T>, b: seq<T>, c: seq<T>)
    requires IsSubsequence(a, b) && IsSubsequence(b, c)
    ensures IsSubsequence(a, c)
    decreases |c|
  {
    if a != [] && c != [] {
      if b[0] == c[0] && IsSubsequence(b[1..], c[1..]) {
        if a[0] == b[0] && IsSubsequence(a[1..], b[1..]) {
          SubsequenceTransitive(a[1..], b[1..], c[1..]);
        } else {
          SubsequenceTransitive(a, b[1..], c[1..]);
        }
      } else {
        SubsequenceTransitive(a, b, c[1..]);
      }
    }
  }

  /** A shown record is in the result, and a record in the result is shown:
      the filter keeps exactly the records whose category and text both match. */
  lemma FilterMembership<T(!new)>(certificates: seq<T>, view: T -> View, filter: string, search: string)
    ensures var r := FilteredCertificates(certificates, view, filter, search);
      forall x :: x in r <==> x in certificates && Shown(view(x), filter, search)
  {
    var r := FilteredCertificates(certificates, view, filter, search);
    forall x ensures x in r <==> x in certificates && Shown(view(x), filter, search) {
      assert x in r <==> multiset(r)[x] > 0;
      assert x in certificates <==> multiset(certificates)[x] > 0;
    }
  }

  /** The label shown on a certificate card for its category. */
  function CategoryName(category: string): (shown: string)
    ensures shown == category <==> category !in KnownCategories
  {
    if category == "degree" then "Degree Certificate"
    else if category == "course" then "Course Completion"
    else if category == "achievement" then "Achievement"
    else if category == "professional" then "Professional"
    else if category == "other" then "Other"
    else category
  }

  const KnownCategories: set<string> := {"degree", "course", "achievement", "professional", "other"}

  /** Distinct known categories get distinct labels. */
  lemma CategoryNamesDistinct(a: string, b: string)
    requires a in KnownCategories && b in KnownCategories && a != b
    ensures CategoryName(a) != CategoryName(b)
  {
  }
}
