/** Drawing a code name whose adjective and noun have not been used (`generate_unique_code_name`).
    The caller's two used sets are updated in place, so they live in an object. */
module Sampler {
  import opened Common
  import opened Text

  /** The caller's `used_adjectives` and `used_nouns`, which the sampler grows in place. */
  class UsedSets {
    var adjectives: set<string>
    var nouns: set<string>

    constructor (adjectives: set<string>, nouns: set<string>)
      ensures this.adjectives == adjectives && this.nouns == nouns
    {
      this.adjectives := adjectives;
      this.nouns := nouns;
    }
  }

  /** Every word of `words` whose lower-case form is used. */
  predicate AllUsed(words: seq<string>, used: set<string>)
  {
    forall w :: w in words ==> Lower(w) in used
  }

  /** The list comprehensions at the top of `generate_unique_code_name`: the words whose
      lower-case form is not in `used`, in their original order and with their repetitions. */
  function Available(words: seq<string>, used: set<string>): (r: seq<string>)
    ensures forall w :: w in r <==> w in words && Lower(w) !in used
    ensures |r| <= |words|
  {
    if words == [] then []
    else (if Lower(words[0]) in used then [] else [words[0]]) + Available(words[1..], used)
  }

  /** No word is available exactly when every word is used. */
  lemma AvailableEmpty(words: seq<string>, used: set<string>)
    ensures Available(words, used) == [] <==> AllUsed(words, used)
  {
    var r := Available(words, used);
    if r != [] {
      assert r[0] in r;
    }
  }

  /** The filter keeps the order of the list: it maps a concatenation to a concatenation. */
  lemma {:induction false} AvailableAppend(a: seq<string>, b: seq<string>, used: set<string>)
    ensures Available(a + b, used) == Available(a, used) + Available(b, used)
    decreases |a|
  {
    if a == [] {
      assert a + b == b;
    } else {
      assert (a + b)[1..] == a[1..] + b;
      AvailableAppend(a[1..], b, used);
    }
  }

  /** `generate_unique_code_name`. It fails, changing nothing, when every adjective or every
      noun is used. Otherwise it draws an available adjective and an available noun (the
      `:|` choices stand for `random.choice`), returns them joined by a space and upper-cased,
      and adds their lower-case forms to the used sets. The retry loop of the source is kept:
      the ghost counter shows that its first round always returns. */
  method GenerateUniqueCodeName(adjectives: seq<string>, nouns: seq<string>, used: UsedSets)
    returns (codeName: Option<string>)
    modifies used
    ensures codeName.None? <==> AllUsed(adjectives, old(used.adjectives)) || AllUsed(nouns, old(used.nouns))
    ensures codeName.None? ==> used.adjectives == old(used.adjectives) && used.nouns == old(used.nouns)
    ensures codeName.Some? ==>
      exists adj, noun ::
        && adj in adjectives && Lower(adj) !in old(used.adjectives)
        && noun in nouns && Lower(noun) !in old(used.nouns)
        && codeName.value == Upper(adj + " " + noun)
        && used.adjectives == old(used.adjectives) + {Lower(adj)}
        && used.nouns == old(used.nouns) + {Lower(noun)}
  {
    var availableAdjectives := Available(adjectives, used.adjectives);
    var availableNouns := Available(nouns, used.nouns);
    AvailableEmpty(adjectives, used.adjectives);
    AvailableEmpty(nouns, used.nouns);

    if availableAdjectives == [] || availableNouns == [] {
      return None;
    }

    codeName := None;
    ghost var rounds := 0;
    while availableAdjectives != [] && availableNouns != [] && codeName.None?
      invariant rounds <= 1
      invariant codeName.None? <==> rounds == 0
      invariant codeName.None? ==> used.adjectives == old(used.adjectives) && used.nouns == old(used.nouns)
      invariant codeName.Some? ==>
        exists adj, noun ::
          && adj in adjectives && Lower(adj) !in old(used.adjectives)
          && noun in nouns && Lower(noun) !in old(used.nouns)
          && codeName.value == Upper(adj + " " + noun)
          && used.adjectives == old(used.adjectives) + {Lower(adj)}
          && used.nouns == old(used.nouns) + {Lower(noun)}
      decreases 1 - rounds
    {
      var i :| 0 <= i < |availableAdjectives|;
      var j :| 0 <= j < |availableNouns|;
      var adj, noun := availableAdjectives[i], availableNouns[j];
      var name := Upper(adj + " " + noun);
      if Lower(adj) !in used.adjectives && Lower(noun) !in used.nouns {
        used.adjectives := used.adjectives + {Lower(adj)};
        used.nouns := used.nouns + {Lower(noun)};
        codeName := Some(name);
      }
      rounds := rounds + 1;
    }
    // The loop ran exactly once.
    assert rounds == 1;
  }
}
