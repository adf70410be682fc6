/**
 * The sentence state of `SignifyApp` (main.py lines 20-22 and 166-222): the
 * key and button handlers that edit the sentence, and `update_suggestions`,
 * which every edit ends with. The dictionary is the uppercase word set in
 * whatever order the set iterates; nothing here depends on that order.
 */
module Composer {
  import opened PyStr

  /** `self.labels`: the classifier's 27 outputs. */
  const Labels: seq<string> := ["A", "B", "C", "D", "E", "F", "G", "H", "I", "J", "K", "L", "M", "N", "O",
                                "P", "Q", "R", "S", "T", "U", "V", "W", "X", "Y", "Z", "I am"]

  /** The `[:5]` cut-off of the suggestion list. */
  const MaxSuggestions: nat := 5

  /** `sentence.strip().split(" ")[-1]`: the word being typed. */
  function LastToken(sentence: string): (t: string)
    ensures ' ' !in t
    ensures var s := Strip(sentence); |t| <= |s| && s[|s| - |t|..] == t
    ensures var s := Strip(sentence); |t| == |s| || s[|s| - |t| - 1] == ' '
  {
    SplitLastPiece(Strip(sentence));
    SplitPiecesSpaceFree(Strip(sentence));
    var words := Split(Strip(sentence));
    words[|words| - 1]
  }

  /** `partial_input` at line 186. */
  function PartialInput(sentence: string): (p: string)
    ensures |p| == |LastToken(sentence)|
    ensures forall k :: 0 <= k < |p| ==> p[k] == UpperChar(LastToken(sentence)[k])
    ensures ' ' !in p
  {
    Upper(LastToken(sentence))
  }

  /** `[word for word in dictionary if word.startswith(p)]`, in dictionary order. */
  function Matches(dictionary: seq<string>, p: string): (r: seq<string>)
    ensures |r| <= |dictionary|
    ensures forall w :: w in r <==> w in dictionary && p <= w
    ensures forall w :: multiset(r)[w] == if p <= w then multiset(dictionary)[w] else 0
  {
    if |dictionary| == 0 then []
    else
      assert dictionary == [dictionary[0]] + dictionary[1..];
      (if p <= dictionary[0] then [dictionary[0]] else []) + Matches(dictionary[1..], p)
  }

  /**
   * The list comprehension at line 190 with its `[:5]`: the first five
   * dictionary words that `p` is a prefix of.
   */
  function FirstMatches(dictionary: seq<string>, p: string): (r: seq<string>)
    ensures |r| <= MaxSuggestions
    ensures forall w :: w in r ==> w in dictionary && p <= w
    ensures |r| < MaxSuggestions ==> forall w :: w in dictionary && p <= w ==> w in r
    ensures multiset(r) <= multiset(Matches(dictionary, p))
    ensures |r| == if |Matches(dictionary, p)| < MaxSuggestions then |Matches(dictionary, p)| else MaxSuggestions
  {
    var m := Matches(dictionary, p);
    if |m| <= MaxSuggestions then m
    else
      assert forall w :: w in m[..MaxSuggestions] ==> w in m;
      assert m == m[..MaxSuggestions] + m[MaxSuggestions..];
      m[..MaxSuggestions]
  }

  /**
   * `update_suggestions` (lines 186-192): nothing for an empty partial input,
   * otherwise the first five dictionary words it is a prefix of.
   */
  function Suggestions(sentence: string, dictionary: seq<string>): (r: seq<string>)
    ensures |r| <= MaxSuggestions
    ensures forall w :: w in r ==> w in dictionary && PartialInput(sentence) <= w
    ensures PartialInput(sentence) == "" ==> r == []
    ensures PartialInput(sentence) != "" && |r| < MaxSuggestions ==>
      forall w :: w in dictionary && PartialInput(sentence) <= w ==> w in r
    ensures PartialInput(sentence) != "" ==>
      var m := Matches(dictionary, PartialInput(sentence));
      && multiset(r) <= multiset(m)
      && |r| == if |m| < MaxSuggestions then |m| else MaxSuggestions
  {
    var p := PartialInput(sentence);
    if p == "" then [] else FirstMatches(dictionary, p)
  }

  /**
   * The dictionary is a set, so no word occurs in it twice; then no word is
   * suggested twice either.
   */
  lemma NoRepeatedSuggestion(sentence: string, dictionary: seq<string>)
    requires forall w :: multiset(dictionary)[w] <= 1
    ensures forall w :: multiset(Suggestions(sentence, dictionary))[w] <= 1
  {
    var p := PartialInput(sentence);
    if p != "" {
      var m := Matches(dictionary, p);
      var r := Suggestions(sentence, dictionary);
      forall w
        ensures multiset(r)[w] <= 1
      {
        assert multiset(r)[w] <= multiset(m)[w];
      }
    }
  }

  /** A trailing space leaves the word being typed, so it still suggests completions of the previous word. */
  lemma TrailingSpaceKeepsSuggestions(sentence: string, dictionary: seq<string>)
    ensures LastToken(sentence + " ") == LastToken(sentence)
    ensures Suggestions(sentence + " ", dictionary) == Suggestions(sentence, dictionary)
  {
    StripTrailingSpace(sentence);
  }

  /** An empty sentence has an empty partial input, hence no suggestions. */
  lemma EmptySentenceNoSuggestions(dictionary: seq<string>)
    ensures LastToken("") == ""
    ensures Suggestions("", dictionary) == []
  {
    assert TrimLeft("") == "";
    assert Strip("") == "";
    assert FirstSpace("") == 0;
    assert Split("") == [""];
  }

  /** After the "I am" label the partial input is the uppercased second word. */
  lemma IAmPartialInput()
    ensures PartialInput(Labels[26]) == "AM"
  {
    StripKeepsTrimmed("I am");
    assert Join(["I", "am"]) == "I am";
    SplitJoin(["I", "am"]);
    assert LastToken("I am") == "am";
    assert Upper("") == "";
    assert Upper("m") == [UpperChar('m')] + Upper("");
    assert Upper("am") == [UpperChar('a')] + Upper("m");
  }

  /**
   * `apply_suggestion` (lines 207-209): the last token of the stripped
   * sentence is replaced by `word`, the pieces are re-joined with single
   * spaces, and one space is appended.
   */
  function ApplyWord(sentence: string, word: string): (r: string)
    ensures |r| > 0 && r[|r| - 1] == ' '
    ensures word != "" && ' ' !in word ==> |r| >= 2 && r[|r| - 2] != ' '
  {
    var words := Split(Strip(sentence));
    var joined := Join(words[..|words| - 1] + [word]);
    if word != "" then
      JoinLastChar(words[..|words| - 1] + [word]);
      joined + " "
    else joined + " "
  }

  /** On an empty sentence the suggestion becomes the whole sentence, followed by a space. */
  lemma ApplyOnEmpty(word: string)
    ensures ApplyWord("", word) == word + " "
  {
    EmptySentenceNoSuggestions([]);
    var words := Split(Strip(""));
    assert words[..|words| - 1] + [word] == [word];
  }

  /** In a two-word sentence the second word is replaced and a space appended. */
  lemma ApplyOnTwoWords(first: string, second: string, word: string)
    requires first != "" && ' ' !in first && second != "" && ' ' !in second
    ensures ApplyWord(first + " " + second, word) == first + " " + word + " "
  {
    var s := first + " " + second;
    assert Join([first, second]) == s;
    StripKeepsTrimmed(s);
    SplitJoin([first, second]);
    var words := Split(Strip(s));
    assert words[..|words| - 1] + [word] == [first, word];
    assert Join([first, word]) == first + " " + word;
  }

  /** `"HELLO WOR"` with `"WORLD"` gives `"HELLO WORLD "`. */
  lemma ApplyExample()
    ensures ApplyWord("HELLO WOR", "WORLD") == "HELLO WORLD "
  {
    assert "HELLO WOR" == "HELLO" + " " + "WOR";
    ApplyOnTwoWords("HELLO", "WOR", "WORLD");
    assert "HELLO" + " " + "WORLD" + " " == "HELLO WORLD ";
  }

  /**
   * Splitting the result again gives every earlier token unchanged, in order,
   * followed by `word`: only the last token is replaced.
   */
  lemma ApplyKeepsEarlierTokens(sentence: string, word: string)
    requires word != "" && ' ' !in word
    ensures var words := Split(Strip(sentence));
      Split(Strip(ApplyWord(sentence, word))) == words[..|words| - 1] + [word]
  {
    var stripped := Strip(sentence);
    var words := Split(stripped);
    var ys := words[..|words| - 1] + [word];
    var joined := Join(ys);
    assert ApplyWord(sentence, word) == joined + " ";
    StripTrailingSpace(joined);
    JoinLastChar(ys);
    if |words| == 1 {
      assert ys == [word];
    } else {
      assert stripped != "";
      SplitStrippedHead(stripped);
      assert ys[0] == words[0];
      JoinFirstChar(ys);
    }
    StripKeepsTrimmed(joined);
    SplitPiecesSpaceFree(stripped);
    assert forall k :: 0 <= k < |ys| ==> ' ' !in ys[k] by {
      forall k | 0 <= k < |ys|
        ensures ' ' !in ys[k]
      {
        if k < |words| - 1 { assert ys[k] == words[k]; }
      }
    }
    SplitJoin(ys);
  }

  /** Applying the same dictionary word twice is the same as applying it once. */
  lemma ApplyIdempotent(sentence: string, word: string)
    requires word != "" && ' ' !in word
    ensures ApplyWord(ApplyWord(sentence, word), word) == ApplyWord(sentence, word)
  {
    var words := Split(Strip(sentence));
    var ys := words[..|words| - 1] + [word];
    var once := ApplyWord(sentence, word);
    assert once == Join(ys) + " ";
    ApplyKeepsEarlierTokens(sentence, word);
    var again := Split(Strip(once));
    assert again == ys;
    assert again[..|again| - 1] + [word] == ys;
    assert ApplyWord(once, word) == Join(again[..|again| - 1] + [word]) + " ";
  }

  /** The app's text state: the sentence, the latest label, the shown suggestions and the dictionary. */
  datatype App = App(sentence: string, predicted: string, suggestions: seq<string>, dictionary: seq<string>)

  /** The shown suggestions are the ones the current sentence calls for. */
  predicate InSync(a: App)
  {
    a.suggestions == Suggestions(a.sentence, a.dictionary)
  }

  /** The state `__init__` sets up (lines 20-26). */
  function Init(dictionary: seq<string>): (a: App)
    ensures InSync(a)
    ensures a.sentence == "" && a.predicted == "" && a.dictionary == dictionary
  {
    EmptySentenceNoSuggestions(dictionary);
    App("", "", [], dictionary)
  }

  /** `update_suggestions`: recompute the list for the current sentence. */
  function Refresh(a: App): (r: App)
    ensures InSync(r)
    ensures r.sentence == a.sentence && r.predicted == a.predicted && r.dictionary == a.dictionary
  {
    a.(suggestions := Suggestions(a.sentence, a.dictionary))
  }

  /** A classified frame (lines 134 and 138): the label becomes `predicted_char`; the sentence is untouched. */
  function OnClassified(a: App, glyph: string): (r: App)
    ensures InSync(r) && r.predicted == glyph
    ensures r.sentence == a.sentence && r.dictionary == a.dictionary
  {
    Refresh(a.(predicted := glyph))
  }

  /** `add_prediction` (lines 168-170): the label is appended verbatim. */
  function AddPrediction(a: App): (r: App)
    ensures InSync(r) && r.predicted == a.predicted && r.dictionary == a.dictionary
    ensures |r.sentence| == |a.sentence| + |a.predicted|
    ensures r.sentence[..|a.sentence|] == a.sentence && r.sentence[|a.sentence|..] == a.predicted
  {
    Refresh(a.(sentence := a.sentence + a.predicted))
  }

  /** While no frame has been classified `predicted_char` is `""`, and `add_prediction` changes nothing. */
  lemma AddPredictionBeforeAnyLabel(a: App)
    requires InSync(a) && a.predicted == ""
    ensures AddPrediction(a) == a
  {
    assert a.sentence + a.predicted == a.sentence;
  }

  /** The phrase label appends four characters, so one backspace does not undo it. */
  lemma AddPhraseLabel(a: App)
    requires a.predicted == Labels[26]
    ensures |AddPrediction(a).sentence| == |a.sentence| + 4
  {
  }

  /** `add_space` (lines 174-176): one space is appended, and the suggestions stay what they were. */
  function AddSpace(a: App): (r: App)
    ensures InSync(r) && r.predicted == a.predicted && r.dictionary == a.dictionary
    ensures |r.sentence| == |a.sentence| + 1 && r.sentence[..|a.sentence|] == a.sentence
    ensures r.sentence[|a.sentence|] == ' '
    ensures InSync(a) ==> r.suggestions == a.suggestions
  {
    TrailingSpaceKeepsSuggestions(a.sentence, a.dictionary);
    Refresh(a.(sentence := a.sentence + " "))
  }

  /** `delete_character` (lines 180-182): `sentence[:-1]`. */
  function DeleteCharacter(a: App): (r: App)
    ensures InSync(r) && r.predicted == a.predicted && r.dictionary == a.dictionary
    ensures a.sentence == "" ==> r.sentence == ""
    ensures a.sentence != "" ==> |r.sentence| == |a.sentence| - 1 && r.sentence == a.sentence[..|r.sentence|]
  {
    Refresh(a.(sentence := DropLast(a.sentence)))
  }

  /** A space followed by a backspace restores the whole state. */
  lemma SpaceThenDeleteRestores(a: App)
    requires InSync(a)
    ensures DeleteCharacter(AddSpace(a)) == a
  {
    assert (a.sentence + " ")[..|a.sentence|] == a.sentence;
  }

  /**
   * Adding the label and then deleting restores the sentence exactly when the
   * label is one character, or when both are empty.
   */
  lemma PredictionThenDeleteRestoresIff(a: App)
    ensures DeleteCharacter(AddPrediction(a)).sentence == a.sentence
        <==> |a.predicted| == 1 || (a.predicted == "" && a.sentence == "")
  {
    var s := a.sentence + a.predicted;
    if |a.predicted| == 1 {
      assert s[..|s| - 1] == a.sentence;
    }
  }

  /** `apply_suggestion` (lines 207-211). */
  function ApplySuggestion(a: App, word: string): (r: App)
    ensures InSync(r) && r.predicted == a.predicted && r.dictionary == a.dictionary
    ensures word != "" && ' ' !in word ==> LastToken(r.sentence) == word
    ensures word != "" && ' ' !in word ==>
      var ws := Split(Strip(a.sentence)); Split(Strip(r.sentence)) == ws[..|ws| - 1] + [word]
  {
    var r := Refresh(a.(sentence := ApplyWord(a.sentence, word)));
    if word != "" && ' ' !in word then
      ApplyKeepsEarlierTokens(a.sentence, word);
      var words := Split(Strip(a.sentence));
      assert (words[..|words| - 1] + [word])[|words| - 1] == word;
      r
    else r
  }

  /** `clear_sentence` (lines 220-222): the suggestions are emptied directly rather than recomputed. */
  function ClearSentence(a: App): (r: App)
    ensures r.sentence == "" && r.suggestions == []
    ensures r.predicted == a.predicted && r.dictionary == a.dictionary
  {
    a.(sentence := "", suggestions := [])
  }

  /** Emptying the suggestions directly agrees with recomputing them for `""`. */
  lemma ClearIsInSync(a: App)
    ensures InSync(ClearSentence(a))
    ensures ClearSentence(a) == Refresh(a.(sentence := ""))
  {
    EmptySentenceNoSuggestions(a.dictionary);
  }

  /** Every handler keeps the shown suggestions in step with the sentence. */
  lemma HandlersKeepSync(a: App, glyph: string, word: string)
    ensures InSync(AddPrediction(a)) && InSync(AddSpace(a)) && InSync(DeleteCharacter(a))
    ensures InSync(ApplySuggestion(a, word)) && InSync(ClearSentence(a)) && InSync(OnClassified(a, glyph))
  {
    ClearIsInSync(a);
  }
}
