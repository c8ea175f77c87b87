/** Box-id checksum: count the ids in which some letter occurs exactly
    twice and those in which some letter occurs exactly three times, and
    multiply the two counts. */
module BoxChecksum {
  import opened Wrappers

  /** `letter_freq`: a table from each character of `id` to its number of
      occurrences, filled one character at a time. */
  method LetterFreq(id: string) returns (letters: map<char, nat>)
    ensures forall ch :: ch in letters <==> ch in id
    ensures forall ch :: ch in letters ==> letters[ch] == Occurrences(id, ch)
  {
    letters := map[];
    for i := 0 to |id|
      invariant forall ch :: ch in letters <==> ch in id[..i]
      invariant forall ch :: ch in letters ==> letters[ch] == Occurrences(id[..i], ch)
    {
      assert id[..i + 1] == id[..i] + [id[i]];
      forall x { OccurrencesSnoc(id[..i], id[i], x); }
      var ch := id[i];
      var count := if ch in letters then letters[ch] else 0;
      assert ch !in letters ==> Occurrences(id[..i], ch) == 0 by {
        if ch !in letters { NotInZeroOccurrences(id[..i], ch); }
      }
      letters := letters[ch := count + 1];
    }
    assert id[..|id|] == id;
  }

  lemma {:induction false} NotInZeroOccurrences(s: string, ch: char)
    requires ch !in s
    ensures Occurrences(s, ch) == 0
  {
    if s != [] {
      assert forall c :: c in s[1..] ==> c in s;
      NotInZeroOccurrences(s[1..], ch);
    }
  }

  /** `freq?`: some letter occurs exactly `f` times. */
  predicate HasFreq(id: string, f: nat)
  {
    exists i :: 0 <= i < |id| && Occurrences(id, id[i]) == f
  }

  /** The table answers `freq?` exactly: `letters.values.any? { |v| v == f }`. */
  method Freq(letters: map<char, nat>, ghost id: string, f: nat) returns (r: bool)
    requires forall ch :: ch in letters <==> ch in id
    requires forall ch :: ch in letters ==> letters[ch] == Occurrences(id, ch)
    ensures r <==> HasFreq(id, f)
  {
    r := f in letters.Values;
    if r {
      var ch :| ch in letters && letters[ch] == f;
      ghost var i :| 0 <= i < |id| && id[i] == ch;
    } else {
      forall i | 0 <= i < |id|
        ensures Occurrences(id, id[i]) != f
      {
        assert id[i] in letters;
      }
    }
  }

  /** The sum of the counts of the distinct characters `keys` in `id`. */
  function TotalCount(keys: seq<char>, id: string): nat
  {
    if keys == [] then 0 else TotalCount(keys[..|keys| - 1], id) + Occurrences(id, keys[|keys| - 1])
  }

  lemma {:induction false} TotalCountSnoc(keys: seq<char>, id: string, ch: char)
    requires Distinct(keys)
    ensures TotalCount(keys, id + [ch]) == TotalCount(keys, id) + (if ch in keys then 1 else 0)
  {
    if keys != [] {
      var init := keys[..|keys| - 1];
      TotalCountSnoc(init, id, ch);
      OccurrencesSnoc(id, ch, keys[|keys| - 1]);
      assert ch in keys <==> ch in init || ch == keys[|keys| - 1];
      if ch == keys[|keys| - 1] {
        assert ch !in init;
      }
    }
  }

  /** The counts of `letter_freq` add up to the length of the id: summed
      over any list of distinct characters that covers the id. */
  lemma {:induction false} CountsSumToLength(keys: seq<char>, id: string)
    requires Distinct(keys) && forall ch :: ch in id ==> ch in keys
    ensures TotalCount(keys, id) == |id|
    decreases |id|
  {
    if id == [] {
      EmptyTotal(keys);
    } else {
      var init := id[..|id| - 1];
      assert init + [id[|id| - 1]] == id;
      assert forall ch :: ch in init ==> ch in id;
      CountsSumToLength(keys, init);
      TotalCountSnoc(keys, init, id[|id| - 1]);
    }
  }

  lemma {:induction false} EmptyTotal(keys: seq<char>)
    ensures TotalCount(keys, []) == 0
  {
    if keys != [] {
      EmptyTotal(keys[..|keys| - 1]);
    }
  }

  /** The number of ids in which some letter occurs exactly `f` times. */
  function CountWithFreq(ids: seq<string>, f: nat): (n: nat)
    ensures n <= |ids|
  {
    if ids == [] then 0
    else CountWithFreq(ids[..|ids| - 1], f) + (if HasFreq(ids[|ids| - 1], f) then 1 else 0)
  }

  /** The ids counted by `CountWithFreq`, by index: each id adds at most one. */
  lemma {:induction false} CountWithFreqCountsIds(ids: seq<string>, f: nat)
    ensures CountWithFreq(ids, f) == |set i | 0 <= i < |ids| && HasFreq(ids[i], f)|
  {
    if ids != [] {
      var n := |ids| - 1;
      var init := ids[..n];
      CountWithFreqCountsIds(init, f);
      var before := set i | 0 <= i < n && HasFreq(init[i], f);
      var now := set i | 0 <= i < |ids| && HasFreq(ids[i], f);
      if HasFreq(ids[n], f) {
        assert now == before + {n};
      } else {
        assert now == before;
      }
    }
  }

  /** `checksum`: twice-count times thrice-count, computed in one loop. */
  method Checksum(ids: seq<string>) returns (r: nat)
    ensures r == CountWithFreq(ids, 2) * CountWithFreq(ids, 3)
  {
    var twice, thrice := 0, 0;
    for i := 0 to |ids|
      invariant twice == CountWithFreq(ids[..i], 2)
      invariant thrice == CountWithFreq(ids[..i], 3)
    {
      assert ids[..i + 1][..i] == ids[..i];
      var letters := LetterFreq(ids[i]);
      var two := Freq(letters, ids[i], 2);
      if two {
        twice := twice + 1;
      }
      var three := Freq(letters, ids[i], 3);
      if three {
        thrice := thrice + 1;
      }
    }
    assert ids[..|ids|] == ids;
    r := twice * thrice;
  }

  /** The example list in the script's comment: four ids with a letter
      twice, three with a letter three times, checksum 12. */
  lemma ExampleChecksum(ids: seq<string>)
    requires ids == ["abcdef", "bababc", "abbcde", "abcccd", "aabcdd", "abcdee", "ababab"]
    ensures CountWithFreq(ids, 2) == 4 && CountWithFreq(ids, 3) == 3
  {
    ExampleFirstFour(ids);
    assert CountWithFreq(ids[..5], 2) == 3 && CountWithFreq(ids[..5], 3) == 2 by { Id4(ids[4]); CountStep(ids, 4, 2, 2); }
    assert CountWithFreq(ids[..6], 2) == 4 && CountWithFreq(ids[..6], 3) == 2 by { Id5(ids[5]); CountStep(ids, 5, 3, 2); }
    assert CountWithFreq(ids[..7], 2) == 4 && CountWithFreq(ids[..7], 3) == 3 by { Id6(ids[6]); CountStep(ids, 6, 4, 2); }
    assert ids[..7] == ids;
  }

  lemma ExampleFirstFour(ids: seq<string>)
    requires |ids| == 7 && ids[..4] == ["abcdef", "bababc", "abbcde", "abcccd"]
    ensures CountWithFreq(ids[..4], 2) == 2 && CountWithFreq(ids[..4], 3) == 2
  {
    assert CountWithFreq(ids[..1], 2) == 0 && CountWithFreq(ids[..1], 3) == 0 by { Id0(ids[0]); CountStep(ids, 0, 0, 0); }
    assert CountWithFreq(ids[..2], 2) == 1 && CountWithFreq(ids[..2], 3) == 1 by { Id1(ids[1]); CountStep(ids, 1, 0, 0); }
    assert CountWithFreq(ids[..3], 2) == 2 && CountWithFreq(ids[..3], 3) == 1 by { Id2(ids[2]); CountStep(ids, 2, 1, 1); }
    assert CountWithFreq(ids[..4], 2) == 2 && CountWithFreq(ids[..4], 3) == 2 by { Id3(ids[3]); CountStep(ids, 3, 2, 1); }
  }

  /** Counting one more id of the list. */
  lemma CountStep(ids: seq<string>, k: nat, twos: nat, threes: nat)
    requires k < |ids|
    requires CountWithFreq(ids[..k], 2) == twos && CountWithFreq(ids[..k], 3) == threes
    ensures CountWithFreq(ids[..k + 1], 2) == twos + (if HasFreq(ids[k], 2) then 1 else 0)
    ensures CountWithFreq(ids[..k + 1], 3) == threes + (if HasFreq(ids[k], 3) then 1 else 0)
  {
    assert ids[..k + 1][..k] == ids[..k];
  }

  lemma Id0(id: string)
    requires id == "abcdef"
    ensures !HasFreq(id, 2) && !HasFreq(id, 3)
  {
    assert Occurrences("abcdef", 'a') == 1 && Occurrences("abcdef", 'b') == 1 && Occurrences("abcdef", 'c') == 1;
    assert Occurrences("abcdef", 'd') == 1 && Occurrences("abcdef", 'e') == 1 && Occurrences("abcdef", 'f') == 1;
  }

  lemma Id1(id: string)
    requires id == "bababc"
    ensures HasFreq(id, 2) && HasFreq(id, 3)
  {
    assert Occurrences("bababc", 'b') == 3 && Occurrences("bababc", 'a') == 2;
    assert id[0] == 'b' && id[1] == 'a';
  }

  lemma Id2(id: string)
    requires id == "abbcde"
    ensures HasFreq(id, 2) && !HasFreq(id, 3)
  {
    assert Occurrences("abbcde", 'a') == 1 && Occurrences("abbcde", 'b') == 2 && Occurrences("abbcde", 'c') == 1;
    assert Occurrences("abbcde", 'd') == 1 && Occurrences("abbcde", 'e') == 1;
    assert id[1] == 'b';
  }

  lemma Id3(id: string)
    requires id == "abcccd"
    ensures !HasFreq(id, 2) && HasFreq(id, 3)
  {
    assert Occurrences("abcccd", 'a') == 1 && Occurrences("abcccd", 'b') == 1;
    assert Occurrences("abcccd", 'c') == 3 && Occurrences("abcccd", 'd') == 1;
    assert id[2] == 'c';
  }

  lemma Id4(id: string)
    requires id == "aabcdd"
    ensures HasFreq(id, 2) && !HasFreq(id, 3)
  {
    assert Occurrences("aabcdd", 'a') == 2 && Occurrences("aabcdd", 'b') == 1 && Occurrences("aabcdd", 'c') == 1;
    assert Occurrences("aabcdd", 'd') == 2;
    assert id[0] == 'a';
  }

  lemma Id5(id: string)
    requires id == "abcdee"
    ensures HasFreq(id, 2) && !HasFreq(id, 3)
  {
    assert Occurrences("abcdee", 'a') == 1 && Occurrences("abcdee", 'b') == 1 && Occurrences("abcdee", 'c') == 1;
    assert Occurrences("abcdee", 'd') == 1 && Occurrences("abcdee", 'e') == 2;
    assert id[4] == 'e';
  }

  lemma Id6(id: string)
    requires id == "ababab"
    ensures !HasFreq(id, 2) && HasFreq(id, 3)
  {
    assert Occurrences("ababab", 'a') == 3 && Occurrences("ababab", 'b') == 3;
    assert id[0] == 'a';
  }
}
