/**
 * `split_into_chunks` of the document processor: a single greedy pass over
 * the words of the text, closing a chunk whenever the next word would push
 * its running cost past `maxLength`. A word costs its length plus one (its
 * share of the joining space), and is never split.
 *
 * `ChunkGroups` is the reference definition, on word lists: the first chunk
 * takes the longest prefix of words that fits from an empty accumulator
 * (possibly no word at all, which yields the empty chunk `''`), and every
 * later chunk opens with the word that did not fit and takes the longest run
 * after it that still fits. `SplitIntoChunks` is the loop, proved equal to it.
 */
module Chunker {
  import opened Text

  /** What a word adds to the running length: its characters and one separator. */
  function WordCost(w: string): nat {
    |w| + 1
  }

  /** The running length of an accumulator holding `ws`. */
  function Cost(ws: seq<string>): nat {
    if ws == [] then 0 else Cost(ws[..|ws| - 1]) + WordCost(ws[|ws| - 1])
  }

  lemma CostSnoc(ws: seq<string>, lo: nat, hi: nat)
    requires lo <= hi < |ws|
    ensures Cost(ws[lo..hi + 1]) == Cost(ws[lo..hi]) + WordCost(ws[hi])
  {
    assert ws[lo..hi + 1][..hi - lo] == ws[lo..hi];
  }

  /** The words of all groups, in group order. */
  function Flatten(gs: seq<seq<string>>): seq<string> {
    if gs == [] then [] else gs[0] + Flatten(gs[1..])
  }

  /** Each group of words joined with single spaces (`' '.join(current_chunk)`). */
  function JoinEach(gs: seq<seq<string>>): (cs: seq<string>)
    ensures |cs| == |gs|
  {
    if gs == [] then [] else JoinEach(gs[..|gs| - 1]) + [Join(gs[|gs| - 1], " ")]
  }

  /**
   * Where the group `ws[lo..hi]` ends when it is extended greedily: the
   * largest `e >= hi` such that the words `ws[lo..e]` still fit, stopping at
   * the first word that does not.
   */
  function Fill(ws: seq<string>, lo: nat, hi: nat, maxLength: int): (e: nat)
    requires lo <= hi <= |ws|
    ensures hi <= e <= |ws|
    ensures e == hi || Cost(ws[lo..e]) <= maxLength
    ensures e < |ws| ==> Cost(ws[lo..e]) + WordCost(ws[e]) > maxLength
    decreases |ws| - hi
  {
    if hi < |ws| && Cost(ws[lo..hi]) + WordCost(ws[hi]) <= maxLength then
      CostSnoc(ws, lo, hi);
      Fill(ws, lo, hi + 1, maxLength)
    else
      hi
  }

  /** The chunks from word `start` on: each opens with a word whatever its cost. */
  function GroupsFrom(ws: seq<string>, start: nat, maxLength: int): seq<seq<string>>
    requires start <= |ws|
    decreases |ws| - start
  {
    if start == |ws| then []
    else
      var e := Fill(ws, start, start + 1, maxLength);
      [ws[start..e]] + GroupsFrom(ws, e, maxLength)
  }

  /**
   * The word groups `split_into_chunks` closes, in order. The first one is
   * filled from an empty accumulator, so it is empty when the first word
   * alone does not fit.
   */
  function ChunkGroups(ws: seq<string>, maxLength: int): seq<seq<string>> {
    if ws == [] then []
    else
      var e := Fill(ws, 0, 0, maxLength);
      [ws[0..e]] + GroupsFrom(ws, e, maxLength)
  }

  /** `split_into_chunks(text, maxLength)`. */
  function Chunks(text: string, maxLength: int): seq<string> {
    JoinEach(ChunkGroups(Words(text), maxLength))
  }

  /** The groups still to come while `ws[start..i]` is the open chunk. */
  ghost function Resume(ws: seq<string>, start: nat, i: nat, maxLength: int): seq<seq<string>>
    requires start <= i <= |ws|
  {
    var e := Fill(ws, start, i, maxLength);
    [ws[start..e]] + GroupsFrom(ws, e, maxLength)
  }

  /**
   * The state of the loop after it has read `words[..i]`: the open chunk is
   * `words[start..i]` with its running length, the chunks emitted so far are
   * the groups in `closed` joined, and those groups followed by what
   * `Resume` still yields are exactly `ChunkGroups(words, maxLength)`.
   */
  ghost predicate Scanned(
    words: seq<string>, maxLength: int, i: nat, start: nat,
    closed: seq<seq<string>>, chunks: seq<string>, current: seq<string>, currentLength: int)
  {
    start <= i <= |words|
    && (i > 0 ==> start < i)
    && (i == 0 ==> closed == [])
    && current == words[start..i]
    && currentLength == Cost(current)
    && chunks == JoinEach(closed)
    && (words != [] ==> ChunkGroups(words, maxLength) == closed + Resume(words, start, i, maxLength))
  }

  /** Nothing read yet: no chunk, an empty open chunk. */
  lemma ScanStart(words: seq<string>, maxLength: int)
    ensures Scanned(words, maxLength, 0, 0, [], [], [], 0)
  {
    assert words[0..0] == [];
  }

  /** Reading a word that overflows emits the open chunk and opens one with that word. */
  lemma ScanClose(
    words: seq<string>, maxLength: int, i: nat, start: nat,
    closed: seq<seq<string>>, chunks: seq<string>, current: seq<string>, currentLength: int)
    requires Scanned(words, maxLength, i, start, closed, chunks, current, currentLength)
    requires i < |words| && currentLength + WordCost(words[i]) > maxLength
    ensures Scanned(words, maxLength, i + 1, i, closed + [current], chunks + [Join(current, " ")],
      [words[i]], WordCost(words[i]))
  {
    ResumeClose(words, start, i, maxLength);
    assert closed + Resume(words, start, i, maxLength)
      == (closed + [current]) + Resume(words, i, i + 1, maxLength);
    SingleWord(words, i);
    JoinEachSnoc(closed, current);
  }

  /** An overflowing word ends the open group; what follows starts with that word. */
  lemma ResumeClose(ws: seq<string>, start: nat, i: nat, maxLength: int)
    requires start <= i < |ws| && Cost(ws[start..i]) + WordCost(ws[i]) > maxLength
    ensures Resume(ws, start, i, maxLength) == [ws[start..i]] + Resume(ws, i, i + 1, maxLength)
  {
    assert Fill(ws, start, i, maxLength) == i;
  }

  /** The group of one word, and its cost. */
  lemma SingleWord(ws: seq<string>, i: nat)
    requires i < |ws|
    ensures ws[i..i + 1] == [ws[i]] && Cost([ws[i]]) == WordCost(ws[i])
  {
    assert [ws[i]][..0] == [];
  }

  /** Reading a word that fits adds it to the open chunk. */
  lemma ScanExtend(
    words: seq<string>, maxLength: int, i: nat, start: nat,
    closed: seq<seq<string>>, chunks: seq<string>, current: seq<string>, currentLength: int)
    requires Scanned(words, maxLength, i, start, closed, chunks, current, currentLength)
    requires i < |words| && currentLength + WordCost(words[i]) <= maxLength
    ensures Scanned(words, maxLength, i + 1, start, closed, chunks, current + [words[i]],
      currentLength + WordCost(words[i]))
  {
    ResumeExtend(words, start, i, maxLength);
    CostSnoc(words, start, i);
  }

  /** A word that fits joins the open group; what follows is unchanged. */
  lemma ResumeExtend(ws: seq<string>, start: nat, i: nat, maxLength: int)
    requires start <= i < |ws| && Cost(ws[start..i]) + WordCost(ws[i]) <= maxLength
    ensures Resume(ws, start, i, maxLength) == Resume(ws, start, i + 1, maxLength)
    ensures ws[start..i + 1] == ws[start..i] + [ws[i]]
  {
    assert Fill(ws, start, i, maxLength) == Fill(ws, start, i + 1, maxLength);
  }

  /** At the end of the words, emitting the open chunk if it holds a word completes the chunks. */
  lemma ScanFinish(
    words: seq<string>, maxLength: int, start: nat,
    closed: seq<seq<string>>, chunks: seq<string>, current: seq<string>, currentLength: int)
    requires Scanned(words, maxLength, |words|, start, closed, chunks, current, currentLength)
    ensures JoinEach(ChunkGroups(words, maxLength))
      == if current == [] then chunks else chunks + [Join(current, " ")]
  {
    if words != [] {
      assert Fill(words, start, |words|, maxLength) == |words|;
      assert GroupsFrom(words, |words|, maxLength) == [];
      assert current != [];
      JoinEachSnoc(closed, current);
    }
  }

  lemma JoinEachSnoc(gs: seq<seq<string>>, g: seq<string>)
    ensures JoinEach(gs + [g]) == JoinEach(gs) + [Join(g, " ")]
  {
    assert (gs + [g])[..|gs|] == gs;
  }

  /** The `i`-th chunk is the `i`-th group joined with spaces. */
  lemma {:induction false} JoinEachAt(gs: seq<seq<string>>)
    ensures forall i :: 0 <= i < |gs| ==> JoinEach(gs)[i] == Join(gs[i], " ")
  {
    if gs != [] {
      var init := gs[..|gs| - 1];
      JoinEachAt(init);
      assert forall i :: 0 <= i < |init| ==> gs[i] == init[i];
    }
  }

  /**
   * The loop of `split_into_chunks`. It computes exactly `Chunks(text, maxLength)`;
   * the lemmas below say what that is.
   */
  method SplitIntoChunks(text: string, maxLength: int) returns (chunks: seq<string>)
    ensures chunks == Chunks(text, maxLength)
  {
    chunks := [];
    var words := Words(text);
    var current: seq<string> := [];
    var currentLength := 0;
    ghost var start := 0;
    ghost var closed: seq<seq<string>> := [];
    ScanStart(words, maxLength);
    for i := 0 to |words|
      invariant Scanned(words, maxLength, i, start, closed, chunks, current, currentLength)
    {
      var word := words[i];
      var wordLength := |word| + 1;
      if currentLength + wordLength > maxLength {
        ScanClose(words, maxLength, i, start, closed, chunks, current, currentLength);
        chunks := chunks + [Join(current, " ")];
        closed := closed + [current];
        current := [word];
        currentLength := wordLength;
        start := i;
      } else {
        ScanExtend(words, maxLength, i, start, closed, chunks, current, currentLength);
        current := current + [word];
        currentLength := currentLength + wordLength;
      }
    }
    ScanFinish(words, maxLength, start, closed, chunks, current, currentLength);
    if current != [] {
      chunks := chunks + [Join(current, " ")];
    }
  }

  /** The chunks from `start` on hold exactly the words from `start` on, at most one chunk per word. */
  lemma {:induction false} GroupsFromFlatten(ws: seq<string>, start: nat, maxLength: int)
    requires start <= |ws|
    ensures Flatten(GroupsFrom(ws, start, maxLength)) == ws[start..]
    ensures |GroupsFrom(ws, start, maxLength)| <= |ws| - start
    decreases |ws| - start
  {
    if start < |ws| {
      var e := Fill(ws, start, start + 1, maxLength);
      GroupsFromFlatten(ws, e, maxLength);
      assert ws[start..e] + ws[e..] == ws[start..];
    }
  }

  /** Facts about the `i`-th chunk from `start` on: non-empty, bounded unless a single word, closed greedily. */
  lemma {:induction false} GroupsFromAt(ws: seq<string>, start: nat, maxLength: int, i: nat)
    requires start <= |ws| && i < |GroupsFrom(ws, start, maxLength)|
    ensures var gs := GroupsFrom(ws, start, maxLength);
      gs[i] != [] && (|gs[i]| >= 2 ==> Cost(gs[i]) <= maxLength)
      && (i + 1 < |gs| ==> gs[i + 1] != [] && Cost(gs[i]) + WordCost(gs[i + 1][0]) > maxLength)
    decreases i
  {
    var e := Fill(ws, start, start + 1, maxLength);
    var gs := GroupsFrom(ws, start, maxLength);
    var rest := GroupsFrom(ws, e, maxLength);
    assert gs == [ws[start..e]] + rest;
    if i == 0 {
      assert gs[0] == ws[start..e];
      if 1 < |gs| {
        assert gs[1] == rest[0];
        GroupsFromHead(ws, e, maxLength);
      }
    } else {
      GroupsFromAt(ws, e, maxLength, i - 1);
      assert gs[i] == rest[i - 1];
    }
  }

  /** The chunks from `start` on, when there are words left, begin with a chunk opened by `ws[start]`. */
  lemma GroupsFromHead(ws: seq<string>, start: nat, maxLength: int)
    requires start <= |ws|
    ensures var gs := GroupsFrom(ws, start, maxLength);
      (gs == [] <==> start == |ws|)
      && (start < |ws| ==> gs[0] != [] && gs[0][0] == ws[start])
  {
    if start < |ws| {
      var e := Fill(ws, start, start + 1, maxLength);
      assert GroupsFrom(ws, start, maxLength)[0] == ws[start..e];
    }
  }

  /** The chunk groups hold exactly the words; there is at most one more group than words. */
  lemma ChunkGroupsFlatten(ws: seq<string>, maxLength: int)
    ensures ChunkGroups(ws, maxLength) == [] <==> ws == []
    ensures Flatten(ChunkGroups(ws, maxLength)) == ws
    ensures |ChunkGroups(ws, maxLength)| <= |ws| + 1
  {
    if ws != [] {
      var e := Fill(ws, 0, 0, maxLength);
      GroupsFromFlatten(ws, e, maxLength);
      assert ws[0..e] + ws[e..] == ws;
    }
  }

  /**
   * Facts about the `i`-th chunk group: only the first can be empty, and it
   * is exactly when the first word alone overflows; a group of two or more
   * words fits; and a group is closed only when the next group's first word
   * would have overflowed it.
   */
  lemma ChunkGroupsAt(ws: seq<string>, maxLength: int, i: nat)
    requires i < |ChunkGroups(ws, maxLength)|
    ensures var gs := ChunkGroups(ws, maxLength);
      ws != []
      && (gs[i] == [] <==> i == 0 && WordCost(ws[0]) > maxLength)
      && (|gs[i]| >= 2 ==> Cost(gs[i]) <= maxLength)
      && (i + 1 < |gs| ==> gs[i + 1] != [] && Cost(gs[i]) + WordCost(gs[i + 1][0]) > maxLength)
  {
    var e := Fill(ws, 0, 0, maxLength);
    var gs := ChunkGroups(ws, maxLength);
    var rest := GroupsFrom(ws, e, maxLength);
    assert gs == [ws[0..e]] + rest;
    if i == 0 {
      FirstGroup(ws, maxLength);
    } else {
      GroupsFromAt(ws, e, maxLength, i - 1);
      assert gs[i] == rest[i - 1];
      assert i + 1 < |gs| ==> gs[i + 1] == rest[i];
    }
  }

  /** The first group: empty exactly when the first word alone overflows, and closed only by an overflow. */
  lemma FirstGroup(ws: seq<string>, maxLength: int)
    requires ws != []
    ensures var gs := ChunkGroups(ws, maxLength);
      (gs[0] == [] <==> WordCost(ws[0]) > maxLength)
      && (|gs[0]| >= 2 ==> Cost(gs[0]) <= maxLength)
      && (1 < |gs| ==> gs[1] != [] && Cost(gs[0]) + WordCost(gs[1][0]) > maxLength)
  {
    var e := Fill(ws, 0, 0, maxLength);
    var gs := ChunkGroups(ws, maxLength);
    var rest := GroupsFrom(ws, e, maxLength);
    assert gs == [ws[0..e]] + rest;
    assert ws[0..0] == [];
    GroupsFromHead(ws, e, maxLength);
  }

  /** The groups of a list of words are lists of words. */
  lemma {:induction false} FlattenWords(gs: seq<seq<string>>)
    requires AllWords(Flatten(gs))
    ensures forall i :: 0 <= i < |gs| ==> AllWords(gs[i])
  {
    if gs != [] {
      var f := Flatten(gs);
      assert f == gs[0] + Flatten(gs[1..]);
      assert forall j :: 0 <= j < |gs[0]| ==> gs[0][j] == f[j];
      assert forall j :: 0 <= j < |Flatten(gs[1..])| ==> Flatten(gs[1..])[j] == f[|gs[0]| + j];
      FlattenWords(gs[1..]);
      forall i | 0 < i < |gs| ensures AllWords(gs[i]) {
        assert gs[i] == gs[1..][i - 1];
      }
    }
  }

  /** A non-empty group joined with single spaces is one character shorter than its cost. */
  lemma {:induction false} JoinCost(g: seq<string>)
    requires g != []
    ensures |Join(g, " ")| + 1 == Cost(g)
    decreases |g|
  {
    var init := g[..|g| - 1];
    assert g == init + [g[|g| - 1]];
    if init == [] {
      assert Cost(init) == 0;
    } else {
      JoinSnoc(init, g[|g| - 1], " ");
      JoinCost(init);
    }
  }

  /** Splitting each chunk again gives back the word group it was joined from. */
  lemma ChunkWordsAre(text: string, maxLength: int)
    ensures var cs := Chunks(text, maxLength);
      var gs := ChunkGroups(Words(text), maxLength);
      forall i :: 0 <= i < |cs| ==> Words(cs[i]) == gs[i]
  {
    var gs := ChunkGroups(Words(text), maxLength);
    ChunkGroupsFlatten(Words(text), maxLength);
    FlattenWords(gs);
    JoinEachAt(gs);
    forall i | 0 <= i < |gs| ensures Words(Join(gs[i], " ")) == gs[i] {
      WordsOfJoin(gs[i]);
    }
  }

  /** Per-chunk word lists, as `chunk.split()` would give them. */
  function WordsEach(cs: seq<string>): (wss: seq<seq<string>>)
    ensures |wss| == |cs|
  {
    seq(|cs|, i requires 0 <= i < |cs| => Words(cs[i]))
  }

  /**
   * No word is lost, duplicated, reordered or split: the words of the chunks,
   * in chunk order, are exactly `text.split()`.
   */
  lemma ChunksPreserveWords(text: string, maxLength: int)
    ensures Flatten(WordsEach(Chunks(text, maxLength))) == Words(text)
  {
    ChunkWordsAre(text, maxLength);
    ChunkGroupsFlatten(Words(text), maxLength);
    assert WordsEach(Chunks(text, maxLength)) == ChunkGroups(Words(text), maxLength);
  }

  /** There are no chunks exactly when the text is empty or only whitespace. */
  lemma ChunksEmptyIff(text: string, maxLength: int)
    ensures Chunks(text, maxLength) == [] <==> AllSpace(text)
  {
    WordsEmptyIff(text);
    ChunkGroupsFlatten(Words(text), maxLength);
  }

  /** A chunk of two or more words is at most `maxLength - 1` characters long. */
  lemma ChunkLengthBound(text: string, maxLength: int)
    ensures var cs := Chunks(text, maxLength);
      forall i :: 0 <= i < |cs| && |Words(cs[i])| >= 2 ==> |cs[i]| <= maxLength - 1
  {
    var cs := Chunks(text, maxLength);
    var gs := ChunkGroups(Words(text), maxLength);
    ChunkWordsAre(text, maxLength);
    JoinEachAt(gs);
    forall i | 0 <= i < |cs| && |Words(cs[i])| >= 2 ensures |cs[i]| <= maxLength - 1 {
      ChunkGroupsAt(Words(text), maxLength, i);
      JoinCost(gs[i]);
    }
  }

  /**
   * Only the first chunk can be empty, and it is exactly when the first word
   * alone overflows; there is at most one chunk more than there are words.
   */
  lemma EmptyChunks(text: string, maxLength: int)
    ensures var cs := Chunks(text, maxLength);
      var ws := Words(text);
      |cs| <= |ws| + 1
      && forall i :: 0 <= i < |cs| ==>
           ws != [] && (cs[i] == "" <==> i == 0 && WordCost(ws[0]) > maxLength)
  {
    var ws := Words(text);
    var cs := Chunks(text, maxLength);
    var gs := ChunkGroups(ws, maxLength);
    ChunkGroupsFlatten(ws, maxLength);
    FlattenWords(gs);
    JoinEachAt(gs);
    forall i | 0 <= i < |cs|
      ensures ws != [] && (cs[i] == "" <==> i == 0 && WordCost(ws[0]) > maxLength)
    {
      ChunkGroupsAt(ws, maxLength, i);
      if gs[i] != [] { JoinNonEmpty(gs[i], " "); }
    }
  }

  /**
   * Greedy closure: a chunk is only closed when the next chunk's first word
   * would have overflowed it.
   */
  lemma GreedyClosure(text: string, maxLength: int, i: nat)
    requires i + 1 < |Chunks(text, maxLength)|
    ensures var cs := Chunks(text, maxLength);
      Words(cs[i + 1]) != [] && Cost(Words(cs[i])) + WordCost(Words(cs[i + 1])[0]) > maxLength
  {
    var cs := Chunks(text, maxLength);
    var gs := ChunkGroups(Words(text), maxLength);
    ChunkWordsAre(text, maxLength);
    ChunkGroupsAt(Words(text), maxLength, i);
    assert Words(cs[i]) == gs[i] && Words(cs[i + 1]) == gs[i + 1];
  }

  /**
   * The quirk in one example: a text whose only word is longer than the
   * limit yields the empty chunk first, then the word on its own.
   */
  lemma LongFirstWord()
    ensures Chunks("abc", 3) == ["", "abc"]
  {
    var ws := ["abc"];
    assert IsWord("abc") by { assert "abc"[0] == 'a' && "abc"[1] == 'b' && "abc"[2] == 'c'; }
    WordsOfJoin(ws);
    assert Fill(ws, 0, 0, 3) == 0 by { assert ws[0..0] == []; }
    assert Fill(ws, 0, 1, 3) == 1;
    assert ChunkGroups(ws, 3) == [[], ["abc"]] by {
      assert ws[0..0] == [] && ws[0..1] == ["abc"];
    }
    var gs: seq<seq<string>> := [[], ["abc"]];
    assert JoinEach(gs) == ["", "abc"] by {
      assert gs[..1] == [[]];
      var first: seq<seq<string>> := [[]];
      assert JoinEach(first) == [""] by { assert first[..0] == []; }
    }
  }

  /** Five one-letter words with limit 4: two words fit exactly, the third closes the chunk. */
  lemma FiveWords()
    ensures Chunks("a b c d e", 4) == ["a b", "c d", "e"]
  {
    FiveWordsSplit();
    FiveWordsGroups();
    FiveWordsJoined();
  }

  lemma FiveWordsJoined()
    ensures JoinEach([["a", "b"], ["c", "d"], ["e"]]) == ["a b", "c d", "e"]
  {
    var g0, g1, g2 := ["a", "b"], ["c", "d"], ["e"];
    JoinPair("a", "b");
    JoinPair("c", "d");
    assert "a" + " " + "b" == "a b" && "c" + " " + "d" == "c d";
    JoinEachSnoc([g0, g1], g2);
    JoinEachSnoc([g0], g1);
    JoinEachSnoc([], g0);
    assert [g0, g1] + [g2] == [g0, g1, g2];
    assert [g0] + [g1] == [g0, g1];
    assert [] + [g0] == [g0];
  }

  lemma JoinPair(x: string, y: string)
    ensures Join([x, y], " ") == x + " " + y
  {
    assert [x, y][1..] == [y];
  }

  lemma FiveWordsSplit()
    ensures Words("a b c d e") == ["a", "b", "c", "d", "e"]
  {
    var ws := ["a", "b", "c", "d", "e"];
    assert AllWords(ws) by {
      forall i | 0 <= i < |ws| ensures IsWord(ws[i]) {
        assert |ws[i]| == 1 && !IsSpace(ws[i][0]);
      }
    }
    assert Join(ws, " ") == "a b c d e";
    WordsOfJoin(ws);
  }

  lemma FiveWordsGroups()
    ensures ChunkGroups(["a", "b", "c", "d", "e"], 4) == [["a", "b"], ["c", "d"], ["e"]]
  {
    var ws := ["a", "b", "c", "d", "e"];
    CostSnoc(ws, 0, 0);
    CostSnoc(ws, 0, 1);
    CostSnoc(ws, 2, 2);
    CostSnoc(ws, 2, 3);
    assert ws[0..0] == [] && ws[2..2] == [];
    assert Fill(ws, 0, 0, 4) == 2;
    assert Fill(ws, 2, 3, 4) == 4;
    assert Fill(ws, 4, 5, 4) == 5;
    assert ws[0..2] == ["a", "b"] && ws[2..4] == ["c", "d"] && ws[4..5] == ["e"];
    assert GroupsFrom(ws, 4, 4) == [["e"]];
    assert GroupsFrom(ws, 2, 4) == [["c", "d"], ["e"]];
  }
}
