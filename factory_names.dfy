/**
 * The factory-name table of SpringFactoriesLoader as values: how one properties entry
 * (key = comma-separated implementation names) contributes (factory type, implementation)
 * pairs, how the pairs of all resources are merged in resource order, and how each
 * merged list is de-duplicated.
 */
module FactoryNames {
  import opened Seqs

  // ---------------------------------------------------------------------------
  // String.trim
  // ---------------------------------------------------------------------------

  /** String.trim removes every leading and trailing character at or below U+0020. */
  predicate IsTrimmable(c: char) {
    c <= ' '
  }

  function TrimStart(s: string): (r: string)
    ensures |r| <= |s| && r == s[|s| - |r|..]
    ensures forall i :: 0 <= i < |s| - |r| ==> IsTrimmable(s[i])
    ensures r != [] ==> !IsTrimmable(r[0])
  {
    if s != [] && IsTrimmable(s[0]) then TrimStart(s[1..]) else s
  }

  function TrimEnd(s: string): (r: string)
    ensures |r| <= |s| && r == s[..|r|]
    ensures forall i :: |r| <= i < |s| ==> IsTrimmable(s[i])
    ensures r != [] ==> !IsTrimmable(r[|r| - 1])
  {
    if s != [] && IsTrimmable(s[|s| - 1]) then TrimEnd(s[..|s| - 1]) else s
  }

  /**
   * String.trim: the infix of s that remains once the trimmable characters at both ends
   * are removed; it neither starts nor ends with one.
   */
  function Trim(s: string): (r: string)
    ensures |r| <= |s|
    ensures r != [] ==> !IsTrimmable(r[0]) && !IsTrimmable(r[|r| - 1])
  {
    TrimEnd(TrimStart(s))
  }

  /** Where the trimmed infix starts: everything before and after it is trimmable. */
  lemma TrimInfix(s: string) returns (from: nat)
    ensures from + |Trim(s)| <= |s| && Trim(s) == s[from..from + |Trim(s)|]
    ensures forall i :: 0 <= i < from ==> IsTrimmable(s[i])
    ensures forall i :: from + |Trim(s)| <= i < |s| ==> IsTrimmable(s[i])
  {
    var t := TrimStart(s);
    var u := TrimEnd(t);
    from := |s| - |t|;
    PrefixOfSuffix(s, t, u, from);
  }

  /** A prefix u of the suffix t of s that starts at from is the infix of s at from. */
  lemma PrefixOfSuffix(s: string, t: string, u: string, from: nat)
    requires from <= |s| && t == s[from..]
    requires |u| <= |t| && u == t[..|u|]
    ensures from + |u| <= |s| && u == s[from..from + |u|]
    ensures forall i :: from + |u| <= i < |s| ==> s[i] == t[i - from]
  {
  }

  /** Trimming a trimmed string changes nothing. */
  lemma TrimIdempotent(s: string)
    ensures Trim(Trim(s)) == Trim(s)
  {
    var t := Trim(s);
    assert TrimStart(t) == t;
    assert TrimEnd(t) == t;
  }

  // ---------------------------------------------------------------------------
  // StringUtils.commaDelimitedListToStringArray
  // ---------------------------------------------------------------------------

  /** The pieces between commas; a string with n commas has n + 1 pieces, some possibly empty. */
  function Pieces(s: string): (r: seq<string>)
    ensures |r| >= 1
    ensures forall i :: 0 <= i < |r| ==> ',' !in r[i]
  {
    if s == [] then [[]]
    else
      var rest := Pieces(s[1..]);
      if s[0] == ',' then [[]] + rest else [[s[0]] + rest[0]] + rest[1..]
  }

  /** The pieces put back together with a comma between each two. */
  function Join(pieces: seq<string>): string
    requires |pieces| >= 1
  {
    if |pieces| == 1 then pieces[0] else pieces[0] + [','] + Join(pieces[1..])
  }

  /** The empty string has no elements; any other string has all of its comma-separated pieces, empty ones included. */
  function CommaDelimitedListToStringArray(s: string): (r: seq<string>)
    ensures r == [] <==> s == []
    ensures forall i :: 0 <= i < |r| ==> ',' !in r[i]
  {
    if s == [] then [] else Pieces(s)
  }

  lemma {:induction false} JoinPieces(s: string)
    ensures Join(Pieces(s)) == s
  {
    if s != [] {
      var rest := Pieces(s[1..]);
      JoinPieces(s[1..]);
      if s[0] == ',' {
        assert Pieces(s) == [[]] + rest;
        assert Pieces(s)[1..] == rest;
      } else if |rest| == 1 {
        assert Pieces(s) == [[s[0]] + rest[0]];
      } else {
        assert Pieces(s)[1..] == rest[1..];
        assert Join(rest) == rest[0] + [','] + Join(rest[1..]);
      }
    }
  }

  lemma {:induction false} PiecesNoComma(s: string)
    requires ',' !in s
    ensures Pieces(s) == [s]
  {
    if s != [] {
      PiecesNoComma(s[1..]);
      assert s == [s[0]] + s[1..];
    }
  }

  lemma {:induction false} PiecesAfterComma(a: string, b: string)
    requires ',' !in a
    ensures Pieces(a + [','] + b) == [a] + Pieces(b)
  {
    var s := a + [','] + b;
    if a == [] {
      assert s[1..] == b;
    } else {
      assert s[1..] == a[1..] + [','] + b;
      PiecesAfterComma(a[1..], b);
      assert [a[0]] + a[1..] == a;
    }
  }

  /** Splitting at commas and joining with commas are inverse: pieces without commas come back unchanged. */
  lemma {:induction false} PiecesJoin(pieces: seq<string>)
    requires |pieces| >= 1
    requires forall i :: 0 <= i < |pieces| ==> ',' !in pieces[i]
    ensures Pieces(Join(pieces)) == pieces
  {
    if |pieces| == 1 {
      PiecesNoComma(pieces[0]);
    } else {
      PiecesJoin(pieces[1..]);
      PiecesAfterComma(pieces[0], Join(pieces[1..]));
    }
  }

  /** The round trip both ways, with the one exception that the empty string has no pieces. */
  lemma SplitRoundTrip(s: string, pieces: seq<string>)
    requires |pieces| >= 1 && forall i :: 0 <= i < |pieces| ==> ',' !in pieces[i]
    ensures s != [] ==> Join(CommaDelimitedListToStringArray(s)) == s
    ensures Join(pieces) != [] ==> CommaDelimitedListToStringArray(Join(pieces)) == pieces
  {
    JoinPieces(s);
    PiecesJoin(pieces);
  }

  // ---------------------------------------------------------------------------
  // The merge
  // ---------------------------------------------------------------------------

  /** One entry of a spring.factories properties file: key and raw value. */
  type Entry = (string, string)

  /** The entries of one resource, in the order its Properties enumerates them. */
  type Resource = seq<Entry>

  /** A (factory type name, implementation name) pair contributed by an entry. */
  type Contribution = (string, string)

  /** The pairs one entry contributes: its trimmed key with each trimmed piece of its value, in order. */
  function EntryPairs(e: Entry): (r: seq<Contribution>)
    ensures |r| == |CommaDelimitedListToStringArray(e.1)|
    ensures forall i :: 0 <= i < |r| ==> r[i] == (Trim(e.0), Trim(CommaDelimitedListToStringArray(e.1)[i]))
  {
    var pieces := CommaDelimitedListToStringArray(e.1);
    seq(|pieces|, i requires 0 <= i < |pieces| => (Trim(e.0), Trim(pieces[i])))
  }

  function ResourcePairs(r: Resource): seq<Contribution> {
    if r == [] then [] else ResourcePairs(r[..|r| - 1]) + EntryPairs(r[|r| - 1])
  }

  /** Every pair, resource after resource, entry after entry. */
  function Contributions(resources: seq<Resource>): seq<Contribution> {
    if resources == [] then []
    else Contributions(resources[..|resources| - 1]) + ResourcePairs(resources[|resources| - 1])
  }

  /** computeIfAbsent(key, k -> new ArrayList<>()).add(name) */
  function AddName(m: map<string, seq<string>>, key: string, name: string): (r: map<string, seq<string>>)
    ensures r.Keys == m.Keys + {key}
    ensures r[key] == (if key in m then m[key] else []) + [name]
    ensures forall k :: k in m && k != key ==> r[k] == m[k]
  {
    m[key := (if key in m then m[key] else []) + [name]]
  }

  /** The pairs added to m one after the other. */
  function Collect(m: map<string, seq<string>>, pairs: seq<Contribution>): (r: map<string, seq<string>>)
    // the keys are the old ones and those of the pairs
    ensures r.Keys == m.Keys + set p | p in pairs :: p.0
    // names are only ever appended to a list
    ensures forall k :: k in m ==> m[k] <= r[k]
  {
    if pairs == [] then m
    else
      var init, last := pairs[..|pairs| - 1], pairs[|pairs| - 1];
      assert pairs == init + [last];
      assert (set p | p in pairs :: p.0) == (set p | p in init :: p.0) + {last.0};
      AddName(Collect(m, init), last.0, last.1)
  }

  /** Collecting one more pair is adding its name to the table collected so far. */
  lemma CollectSnoc(m: map<string, seq<string>>, pairs: seq<Contribution>, p: Contribution)
    ensures Collect(m, pairs + [p]) == AddName(Collect(m, pairs), p.0, p.1)
  {
    assert (pairs + [p])[..|pairs|] == pairs;
  }

  /** Appending the k-th name of an entry extends the collected table by that entry's k-th pair. */
  lemma CollectEntryStep(m: map<string, seq<string>>, added: seq<Contribution>, e: Entry, k: nat)
    requires k < |CommaDelimitedListToStringArray(e.1)|
    ensures Collect(m, added + EntryPairs(e)[..k + 1]) ==
            AddName(Collect(m, added + EntryPairs(e)[..k]), Trim(e.0), Trim(CommaDelimitedListToStringArray(e.1)[k]))
  {
    var pairs := EntryPairs(e);
    var p := pairs[k];
    var pre := added + pairs[..k];
    assert pairs[..k + 1] == pairs[..k] + [p];
    assert added + pairs[..k + 1] == pre + [p];
    CollectSnoc(m, pre, p);
  }

  lemma ResourcePairsStep(added: seq<Contribution>, r: Resource, j: nat)
    requires j < |r|
    ensures added + ResourcePairs(r[..j + 1]) == (added + ResourcePairs(r[..j])) + EntryPairs(r[j])
  {
    var s := r[..j + 1];
    assert s[..|s| - 1] == r[..j] && s[|s| - 1] == r[j];
    assert ResourcePairs(s) == ResourcePairs(r[..j]) + EntryPairs(r[j]);
  }

  /** Reference definition: the names paired with key, in order. */
  function NamesFor(pairs: seq<Contribution>, key: string): seq<string> {
    if pairs == [] then []
    else
      var last := pairs[|pairs| - 1];
      NamesFor(pairs[..|pairs| - 1], key) + (if last.0 == key then [last.1] else [])
  }

  /** The replaceAll step: every list keeps the first occurrence of each name. */
  function Dedupe(m: map<string, seq<string>>): (r: map<string, seq<string>>)
    ensures r.Keys == m.Keys
    ensures forall k :: k in r ==> NoDups(r[k]) && (forall n :: n in r[k] <==> n in m[k])
  {
    map k | k in m :: Distinct(m[k])
  }

  /** The table loadSpringFactories builds from the resources a class loader finds. */
  function Factories(resources: seq<Resource>): (r: map<string, seq<string>>)
    // a key is present exactly when some resource contributes a name under it
    ensures r.Keys == set p | p in Contributions(resources) :: p.0
    ensures forall k :: k in r ==> NoDups(r[k])
  {
    Dedupe(Collect(map[], Contributions(resources)))
  }

  /** loadFactoryNames: the list under the factory type's name, or the empty list. */
  function GetOrEmpty(table: map<string, seq<string>>, factoryTypeName: string): (r: seq<string>)
    ensures factoryTypeName in table ==> r == table[factoryTypeName]
    ensures factoryTypeName !in table ==> r == []
    // a table of duplicate-free lists answers with a duplicate-free list
    ensures (forall k :: k in table ==> NoDups(table[k])) ==> NoDups(r)
  {
    if factoryTypeName in table then table[factoryTypeName] else []
  }

  // ---------------------------------------------------------------------------
  // What the merge computes
  // ---------------------------------------------------------------------------

  /** Collecting adds exactly the keys of the pairs, and appends to each key its names in pair order. */
  lemma {:induction false} CollectContents(m: map<string, seq<string>>, pairs: seq<Contribution>, key: string)
    ensures key in Collect(m, pairs) <==> key in m || NamesFor(pairs, key) != []
    ensures key in Collect(m, pairs) ==>
              Collect(m, pairs)[key] == (if key in m then m[key] else []) + NamesFor(pairs, key)
  {
    if pairs != [] {
      CollectContents(m, pairs[..|pairs| - 1], key);
    }
  }

  lemma {:induction false} NamesForAppend(a: seq<Contribution>, b: seq<Contribution>, key: string)
    ensures NamesFor(a + b, key) == NamesFor(a, key) + NamesFor(b, key)
  {
    if b != [] {
      assert (a + b)[..|a + b| - 1] == a + b[..|b| - 1];
      NamesForAppend(a, b[..|b| - 1], key);
    } else {
      assert a + b == a;
    }
  }

  /** Concatenating f over s, left to right; Contributions is this fold over ResourcePairs. */
  function FlatMap<T, U>(s: seq<T>, f: T -> seq<U>): seq<U> {
    if s == [] then [] else FlatMap(s[..|s| - 1], f) + f(s[|s| - 1])
  }

  lemma {:induction false} FlatMapAppend<T, U>(a: seq<T>, b: seq<T>, f: T -> seq<U>)
    ensures FlatMap(a + b, f) == FlatMap(a, f) + FlatMap(b, f)
  {
    if b == [] {
      assert a + b == a;
    } else {
      var init := b[..|b| - 1];
      assert (a + b)[..|a + b| - 1] == a + init;
      assert (a + b)[|a + b| - 1] == b[|b| - 1];
      FlatMapAppend(a, init, f);
    }
  }

  lemma {:induction false} ContributionsFlatMap(resources: seq<Resource>)
    ensures Contributions(resources) == FlatMap(resources, ResourcePairs)
  {
    if resources != [] {
      ContributionsFlatMap(resources[..|resources| - 1]);
    }
  }

  lemma ContributionsAppend(r1: seq<Resource>, r2: seq<Resource>)
    ensures Contributions(r1 + r2) == Contributions(r1) + Contributions(r2)
  {
    ContributionsFlatMap(r1 + r2);
    ContributionsFlatMap(r1);
    ContributionsFlatMap(r2);
    FlatMapAppend(r1, r2, ResourcePairs);
  }

  /**
   * The table: a factory type name is a key exactly when some entry contributes a name to
   * it, and its list is every contributed name in order, with later repeats dropped.
   */
  lemma FactoriesContents(resources: seq<Resource>, key: string)
    ensures key in Factories(resources) <==> NamesFor(Contributions(resources), key) != []
    ensures GetOrEmpty(Factories(resources), key) == Distinct(NamesFor(Contributions(resources), key))
  {
    TableContents(Contributions(resources), key);
  }

  lemma TableContents(pairs: seq<Contribution>, key: string)
    ensures key in Dedupe(Collect(map[], pairs)) <==> NamesFor(pairs, key) != []
    ensures GetOrEmpty(Dedupe(Collect(map[], pairs)), key) == Distinct(NamesFor(pairs, key))
  {
    var m := Collect(map[], pairs);
    CollectContents(map[], pairs, key);
    if key in m {
      var names := NamesFor(pairs, key);
      assert m[key] == names;
      DedupeAt(m, key);
      assert GetOrEmpty(Dedupe(m), key) == Distinct(names);
    }
  }

  lemma DedupeAt(m: map<string, seq<string>>, key: string)
    requires key in m
    ensures GetOrEmpty(Dedupe(m), key) == Distinct(m[key])
  {
  }

  /** Names for one factory type from several resources are concatenated in resource order before de-duplication. */
  lemma FactoriesInResourceOrder(r1: seq<Resource>, r2: seq<Resource>, key: string)
    ensures GetOrEmpty(Factories(r1 + r2), key) ==
            Distinct(NamesFor(Contributions(r1), key) + NamesFor(Contributions(r2), key))
  {
    FactoriesContents(r1 + r2, key);
    ContributionsAppend(r1, r2);
    NamesForAppend(Contributions(r1), Contributions(r2), key);
  }

  /** The names returned for a factory type have no duplicates, are in first-occurrence order, and are exactly the contributed ones. */
  lemma FactoryNamesDistinct(resources: seq<Resource>, key: string, i: nat, j: nat)
    ensures var names, contributed := GetOrEmpty(Factories(resources), key), NamesFor(Contributions(resources), key);
      && NoDups(names)
      && (forall n :: n in names <==> n in contributed)
      && (i < j < |names| ==> IndexOf(contributed, names[i]) < IndexOf(contributed, names[j]))
  {
    FactoriesContents(resources, key);
    if i < j < |GetOrEmpty(Factories(resources), key)| {
      DistinctFirstOccurrenceOrder(NamesFor(Contributions(resources), key), i, j);
    }
  }

  lemma EntryPairsTrimmed(e: Entry)
    ensures forall p :: p in EntryPairs(e) ==> Trim(p.0) == p.0 && Trim(p.1) == p.1
  {
    var pairs, pieces := EntryPairs(e), CommaDelimitedListToStringArray(e.1);
    forall p | p in pairs ensures Trim(p.0) == p.0 && Trim(p.1) == p.1 {
      var i :| 0 <= i < |pairs| && pairs[i] == p;
      assert p == (Trim(e.0), Trim(pieces[i]));
      TrimIdempotent(e.0);
      TrimIdempotent(pieces[i]);
    }
  }

  lemma {:induction false} ResourcePairsTrimmed(r: Resource)
    ensures forall p :: p in ResourcePairs(r) ==> Trim(p.0) == p.0 && Trim(p.1) == p.1
  {
    if r != [] {
      ResourcePairsTrimmed(r[..|r| - 1]);
      EntryPairsTrimmed(r[|r| - 1]);
      assert ResourcePairs(r) == ResourcePairs(r[..|r| - 1]) + EntryPairs(r[|r| - 1]);
    }
  }

  lemma {:induction false} ContributionsTrimmed(resources: seq<Resource>)
    ensures forall p :: p in Contributions(resources) ==> Trim(p.0) == p.0 && Trim(p.1) == p.1
  {
    if resources != [] {
      ContributionsTrimmed(resources[..|resources| - 1]);
      ResourcePairsTrimmed(resources[|resources| - 1]);
    }
  }

  lemma {:induction false} NamesForFrom(pairs: seq<Contribution>, key: string, n: string)
    requires n in NamesFor(pairs, key)
    ensures (key, n) in pairs
  {
    var init := pairs[..|pairs| - 1];
    if n in NamesFor(init, key) {
      NamesForFrom(init, key, n);
    }
  }

  /** Every factory type name and every implementation name in the table is trimmed. */
  lemma FactoriesTrimmed(resources: seq<Resource>, key: string, n: string)
    requires key in Factories(resources) && n in Factories(resources)[key]
    ensures Trim(key) == key && Trim(n) == n
  {
    FactoriesContents(resources, key);
    NamesForFrom(Contributions(resources), key, n);
    ContributionsTrimmed(resources);
  }
}
