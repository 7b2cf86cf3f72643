/** White space and the runs of text between it: JavaScript's `trim`, `split(/\s+/)` and `replace(/\s+/g, ' ')`. */
module Words {
  import opened Wire

  const SPACE: byte := 32

  predicate IsSpace(b: byte) {
    9 <= b <= 13 || b == SPACE
  }

  /** How far the run of spaces, or of non-spaces, at the front of `t` reaches. */
  function SpaceEnd(t: Text): (n: nat)
    ensures n <= |t| && (t != [] && IsSpace(t[0]) ==> 0 < n)
    ensures n < |t| ==> !IsSpace(t[n])
  {
    if t == [] || !IsSpace(t[0]) then 0 else 1 + SpaceEnd(t[1..])
  }

  function WordEnd(t: Text): (n: nat)
    ensures n <= |t| && (t != [] && !IsSpace(t[0]) ==> 0 < n)
    ensures n < |t| ==> IsSpace(t[n])
    ensures forall i | 0 <= i < n :: !IsSpace(t[i])
  {
    if t == [] || IsSpace(t[0]) then 0 else 1 + WordEnd(t[1..])
  }

  predicate IsWord(t: Text) {
    t != [] && forall i | 0 <= i < |t| :: !IsSpace(t[i])
  }

  /** The words of a text, in order. */
  function WordsOf(t: Text): (words: seq<Text>)
    ensures forall i | 0 <= i < |words| :: IsWord(words[i])
    decreases |t|
  {
    if t == [] then []
    else if IsSpace(t[0]) then WordsOf(t[SpaceEnd(t)..])
    else [t[..WordEnd(t)]] + WordsOf(t[WordEnd(t)..])
  }

  /** `replace(/\s+/g, ' ')`. */
  function Collapse(t: Text): Text
    decreases |t|
  {
    if t == [] then []
    else if IsSpace(t[0]) then [SPACE] + Collapse(t[SpaceEnd(t)..])
    else t[..WordEnd(t)] + Collapse(t[WordEnd(t)..])
  }

  function TrimStart(t: Text): Text {
    if t == [] || !IsSpace(t[0]) then t else TrimStart(t[1..])
  }

  function TrimEnd(t: Text): Text {
    if t == [] || !IsSpace(t[|t| - 1]) then t else TrimEnd(t[..|t| - 1])
  }

  function Normalise(t: Text): Text {
    TrimEnd(TrimStart(Collapse(t)))
  }

  function Join(words: seq<Text>): Text {
    if words == [] then []
    else if |words| == 1 then words[0]
    else words[0] + [SPACE] + Join(words[1..])
  }

  // ----- normalising is joining the words -----

  lemma {:induction false} JoinEnds(words: seq<Text>)
    requires words != [] && forall i | 0 <= i < |words| :: IsWord(words[i])
    ensures var j := Join(words); j != [] && !IsSpace(j[0]) && !IsSpace(j[|j| - 1])
  {
    var first := words[0];
    assert IsWord(first);
    if |words| > 1 {
      JoinEnds(words[1..]);
      var rest := Join(words[1..]);
      assert Join(words) == first + [SPACE] + rest;
    }
  }

  /** A run of spaces collapses to one space and holds no word. */
  lemma {:induction false} SpacesThen(t: Text)
    requires t != [] && IsSpace(t[0])
    ensures var next := t[SpaceEnd(t)..];
            && (next == [] || !IsSpace(next[0]))
            && Collapse(t) == [SPACE] + Collapse(next)
            && WordsOf(t) == WordsOf(next)
  {
  }

  lemma {:induction false} WordThen(t: Text)
    requires t != [] && !IsSpace(t[0])
    ensures var n := WordEnd(t);
            && Collapse(t) == t[..n] + Collapse(t[n..])
            && WordsOf(t) == [t[..n]] + WordsOf(t[n..])
            && (t[n..] == [] || IsSpace(t[n..][0]))
  {
  }

  lemma {:induction false} NoWords()
    ensures Collapse([]) == [] && WordsOf([]) == []
  {
  }

  /** What collapsing leaves of a text that starts with a word: its words, and at most one space after them. */
  lemma {:induction false} CollapsedWords(t: Text)
    requires t != [] && !IsSpace(t[0])
    ensures WordsOf(t) != []
    ensures Collapse(t) == Join(WordsOf(t)) || Collapse(t) == Join(WordsOf(t)) + [SPACE]
    decreases |t|
  {
    hide Collapse, WordsOf;
    NoWords();
    WordThen(t);
    var word, rest := t[..WordEnd(t)], t[WordEnd(t)..];
    if rest == [] {
      assert word + [] == word && [word] + [] == [word];
    } else {
      SpacesThen(rest);
      var next := rest[SpaceEnd(rest)..];
      assert Collapse(t) == word + ([SPACE] + Collapse(next));
      if next == [] {
        assert [word] + [] == [word] && word + ([SPACE] + []) == word + [SPACE];
      } else {
        CollapsedWords(next);
        hide Join;
        JoinCons(word, WordsOf(next));
        var j := Join(WordsOf(next));
        assert word + ([SPACE] + (j + [SPACE])) == word + [SPACE] + j + [SPACE];
        assert word + ([SPACE] + j) == word + [SPACE] + j;
      }
    }
  }

  lemma {:induction false} JoinCons(word: Text, words: seq<Text>)
    requires words != []
    ensures Join([word] + words) == word + [SPACE] + Join(words)
  {
  }

  lemma {:induction false} TrimKeeps(t: Text)
    requires t != [] && !IsSpace(t[0]) && !IsSpace(t[|t| - 1])
    ensures TrimEnd(TrimStart(t)) == t
    ensures TrimEnd(TrimStart([SPACE] + t)) == t
    ensures TrimEnd(TrimStart(t + [SPACE])) == t
    ensures TrimEnd(TrimStart([SPACE] + t + [SPACE])) == t
  {
  }

  /** Normalised text is the words of the text with one space between them. */
  lemma {:induction false} NormaliseJoins(t: Text)
    ensures Normalise(t) == Join(WordsOf(t))
  {
    if t != [] && IsSpace(t[0]) {
      SpacesThen(t);
      var body := t[SpaceEnd(t)..];
      if body == [] {
        NoWords();
        assert Collapse(t) == [SPACE] && TrimStart([SPACE]) == TrimStart([SPACE][1..]) == [];
      } else {
        WordThenTrim(body);
      }
    } else if t != [] {
      WordThenTrim(t);
    }
  }

  lemma {:induction false} WordThenTrim(t: Text)
    requires t != [] && !IsSpace(t[0])
    ensures TrimEnd(TrimStart(Collapse(t))) == Join(WordsOf(t))
    ensures TrimEnd(TrimStart([SPACE] + Collapse(t))) == Join(WordsOf(t))
  {
    hide Collapse, WordsOf, TrimEnd, TrimStart, Join;
    CollapsedWords(t);
    JoinEnds(WordsOf(t));
    var j := Join(WordsOf(t));
    TrimKeeps(j);
    assert [SPACE] + (j + [SPACE]) == [SPACE] + j + [SPACE];
  }

  lemma {:induction false} WordEndOf(word: Text, rest: Text)
    requires forall i | 0 <= i < |word| :: !IsSpace(word[i])
    requires rest == [] || IsSpace(rest[0])
    ensures WordEnd(word + rest) == |word|
  {
    if word != [] {
      assert (word + rest)[1..] == word[1..] + rest;
      WordEndOf(word[1..], rest);
    } else {
      assert word + rest == rest;
    }
  }

  lemma {:induction false} WordsOfJoin(words: seq<Text>)
    requires forall i | 0 <= i < |words| :: IsWord(words[i])
    ensures WordsOf(Join(words)) == words
    decreases |words|
  {
    hide WordsOf, Collapse;
    NoWords();
    if words != [] {
      var word, t := words[0], Join(words);
      assert IsWord(word);
      if |words| == 1 {
        WordEndOf(word, []);
        assert word + [] == word && t[..|word|] == word && t[|word|..] == [] && words == [word];
        WordThen(t);
      } else {
        var rest := Join(words[1..]);
        WordsOfJoin(words[1..]);
        JoinEnds(words[1..]);
        hide Join;
        var tail := [SPACE] + rest;
        assert t == word + tail && t[..|word|] == word && t[|word|..] == tail;
        WordEndOf(word, tail);
        WordThen(t);
        SpacesThen(tail);
        assert tail[1..] == rest && SpaceEnd(tail) == 1;
        assert words == [word] + words[1..];
      }
    }
  }

  /** Two texts normalise alike exactly when they hold the same words in the same order. */
  lemma {:induction false} NormaliseIdentity(s: Text, t: Text)
    ensures Normalise(s) == Normalise(t) <==> WordsOf(s) == WordsOf(t)
  {
    NormaliseJoins(s);
    NormaliseJoins(t);
    WordsOfJoin(WordsOf(s));
    WordsOfJoin(WordsOf(t));
  }

  /** Normalising twice is normalising once. */
  lemma {:induction false} NormaliseTwice(t: Text)
    ensures Normalise(Normalise(t)) == Normalise(t)
  {
    NormaliseJoins(t);
    NormaliseJoins(Normalise(t));
    WordsOfJoin(WordsOf(t));
  }

  // ----- white space in bytes -----

  /** Tab, line feed, vertical tab, form feed, carriage return and space. */
  const BLANKS: set<byte> := {9, 10, 11, 12, 13, 32}

  /** The words of `t` by its bytes: blanks, a run of other bytes up to a blank or the end, and so on. */
  ghost predicate Spells(t: Text, words: seq<Text>)
    decreases |words|
  {
    if words == [] then forall i | 0 <= i < |t| :: t[i] in BLANKS
    else
      exists n: nat :: Opens(t, n, words[0]) && Spells(t[n + |words[0]|..], words[1..])
  }

  /** After `n` blanks stands `word`, whole. */
  predicate Opens(t: Text, n: nat, word: Text) {
    && n + |word| <= |t| && word != [] && t[n..n + |word|] == word
    && (forall i | 0 <= i < n :: t[i] in BLANKS) && (forall i | 0 <= i < |word| :: word[i] !in BLANKS)
    && (n + |word| < |t| ==> t[n + |word|] in BLANKS)
  }

  lemma {:induction false} BlankEnd(t: Text, n: nat)
    requires n <= |t| && (forall i | 0 <= i < n :: IsSpace(t[i])) && (n < |t| ==> !IsSpace(t[n]))
    ensures SpaceEnd(t) == n
    decreases n
  {
    if n > 0 {
      BlankEnd(t[1..], n - 1);
    }
  }

  lemma {:induction false} AllBlank(t: Text)
    requires forall i | 0 <= i < |t| :: t[i] in BLANKS
    ensures WordsOf(t) == []
  {
    forall b: byte ensures IsSpace(b) <==> b in BLANKS {
    }
    if t != [] {
      BlankEnd(t, |t|);
      assert t[|t|..] == [];
    }
  }

  lemma {:induction false} FirstWord(word: Text, rest: Text)
    requires word != [] && (forall i | 0 <= i < |word| :: word[i] !in BLANKS) && (rest != [] ==> rest[0] in BLANKS)
    ensures WordsOf(word + rest) == [word] + WordsOf(rest)
  {
    forall b: byte ensures IsSpace(b) <==> b in BLANKS {
    }
    var t := word + rest;
    assert t[0] == word[0];
    WordEndOf(word, rest);
    assert t[..|word|] == word && t[|word|..] == rest;
  }

  lemma {:induction false} SkipBlanks(t: Text, n: nat)
    requires n < |t| && (forall i | 0 <= i < n :: t[i] in BLANKS) && t[n] !in BLANKS
    ensures WordsOf(t) == WordsOf(t[n..])
  {
    forall b: byte ensures IsSpace(b) <==> b in BLANKS {
    }
    if n == 0 {
      assert t[0..] == t;
    } else {
      BlankEnd(t, n);
      SpacesThen(t);
    }
  }

  lemma {:induction false} RunIsBlank(t: Text)
    ensures forall i | 0 <= i < SpaceEnd(t) :: t[i] in BLANKS
    decreases |t|
  {
    if t != [] && IsSpace(t[0]) {
      RunIsBlank(t[1..]);
      forall i | 0 <= i < SpaceEnd(t) ensures t[i] in BLANKS {
        assert 0 < i ==> t[i] == t[1..][i - 1];
      }
    }
  }

  lemma {:induction false} SpellsBehind(t: Text, n: nat, words: seq<Text>)
    requires n <= |t| && (forall i | 0 <= i < n :: t[i] in BLANKS) && Spells(t[n..], words)
    ensures Spells(t, words)
  {
    var rest := t[n..];
    if words == [] {
      forall i | 0 <= i < |t| ensures t[i] in BLANKS {
        assert n <= i ==> t[i] == rest[i - n];
      }
    } else {
      var m: nat :| Opens(rest, m, words[0]) && Spells(rest[m + |words[0]|..], words[1..]);
      var end := n + m + |words[0]|;
      assert t[end..] == rest[m + |words[0]|..];
      assert t[n + m..end] == rest[m..m + |words[0]|];
      forall i | 0 <= i < n + m ensures t[i] in BLANKS {
        assert n <= i ==> t[i] == rest[i - n];
      }
      assert end < |t| ==> t[end] == rest[m + |words[0]|];
      assert Opens(t, n + m, words[0]) && Spells(t[n + m + |words[0]|..], words[1..]);
    }
  }

  lemma {:induction false} SpelledByWords(t: Text)
    ensures Spells(t, WordsOf(t))
    decreases |t|
  {
    if t != [] && IsSpace(t[0]) {
      var n := SpaceEnd(t);
      RunIsBlank(t);
      SpelledByWords(t[n..]);
      SpellsBehind(t, n, WordsOf(t));
    } else if t != [] {
      var n := WordEnd(t);
      forall b: byte ensures IsSpace(b) <==> b in BLANKS {
      }
      SpelledByWords(t[n..]);
      assert WordsOf(t) == [t[..n]] + WordsOf(t[n..]);
      assert Opens(t, 0, WordsOf(t)[0]) && Spells(t[0 + |WordsOf(t)[0]|..], WordsOf(t)[1..]);
    }
  }

  lemma {:induction false} OpensWith(t: Text, n: nat, word: Text)
    requires Opens(t, n, word)
    ensures WordsOf(t) == [word] + WordsOf(t[n + |word|..])
  {
    hide WordsOf;
    var end := n + |word|;
    var rest := t[end..];
    assert t[n] == t[n..end][0] == word[0];
    SkipBlanks(t, n);
    assert t[n..] == t[n..end] + rest;
    FirstWord(word, rest);
  }

  lemma {:induction false} FirstSpelled(t: Text, words: seq<Text>) returns (rest: Text)
    requires words != [] && Spells(t, words)
    ensures Spells(rest, words[1..]) && WordsOf(t) == [words[0]] + WordsOf(rest)
  {
    hide WordsOf;
    var n: nat :| Opens(t, n, words[0]) && Spells(t[n + |words[0]|..], words[1..]);
    rest := t[n + |words[0]|..];
    OpensWith(t, n, words[0]);
  }

  lemma {:induction false} SpelledOnce(t: Text, words: seq<Text>)
    requires Spells(t, words)
    ensures WordsOf(t) == words
    decreases |words|
  {
    if words == [] {
      AllBlank(t);
    } else {
      hide WordsOf, Spells;
      var rest := FirstSpelled(t, words);
      SpelledOnce(rest, words[1..]);
      assert [words[0]] + words[1..] == words;
    }
  }

  /** The words of a text are exactly what lies between its blanks. */
  lemma {:induction false} WordsSpelled(t: Text, words: seq<Text>)
    ensures Spells(t, words) <==> WordsOf(t) == words
  {
    SpelledByWords(t);
    if Spells(t, words) {
      SpelledOnce(t, words);
    }
  }

  /** What trimming leaves: the text without the blanks at its ends. */
  predicate IsTrimmed(t: Text, whole: Text, lead: nat) {
    && lead + |t| <= |whole| && whole[lead..lead + |t|] == t
    && (t != [] ==> t[0] !in BLANKS && t[|t| - 1] !in BLANKS)
    && (forall i | 0 <= i < lead :: whole[i] in BLANKS)
    && (forall i | lead + |t| <= i < |whole| :: whole[i] in BLANKS)
  }

  lemma {:induction false} TrimStartIs(t: Text) returns (lead: nat)
    ensures lead <= |t| && TrimStart(t) == t[lead..] && (lead < |t| ==> t[lead] !in BLANKS)
    ensures forall i | 0 <= i < lead :: t[i] in BLANKS
  {
    if t == [] || !IsSpace(t[0]) {
      lead := 0;
    } else {
      var more := TrimStartIs(t[1..]);
      lead := 1 + more;
      assert t[1..][more..] == t[lead..];
    }
  }

  lemma {:induction false} TrimEndIs(t: Text) returns (end: nat)
    ensures end <= |t| && TrimEnd(t) == t[..end] && (end > 0 ==> t[end - 1] !in BLANKS)
    ensures forall i | end <= i < |t| :: t[i] in BLANKS
    decreases |t|
  {
    if t == [] || !IsSpace(t[|t| - 1]) {
      end := |t|;
    } else {
      end := TrimEndIs(t[..|t| - 1]);
      assert t[..|t| - 1][..end] == t[..end];
    }
  }

  lemma {:induction false} TrimIs(whole: Text) returns (lead: nat)
    ensures IsTrimmed(TrimEnd(TrimStart(whole)), whole, lead)
  {
    hide TrimStart, TrimEnd;
    lead := TrimStartIs(whole);
    var rest := whole[lead..];
    var end := TrimEndIs(rest);
    assert forall i | 0 <= i < |rest| :: rest[i] == whole[lead + i];
    forall i | lead + end <= i < |whole| ensures whole[i] in BLANKS {
      assert rest[i - lead] == whole[i];
    }
  }
}
