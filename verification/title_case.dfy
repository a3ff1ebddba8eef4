/** `toTitleCase`: split on single spaces, capitalise each word, re-join. */
module TitleCase {

  import opened Wrappers
  import opened Strings

  /** `word.charAt(0).toUpperCase() + word.slice(1).toLowerCase()`; the empty
      word stays empty. */
  function CapitalizeWord(w: string): string {
    if |w| == 0 then "" else [Upper(w[0])] + LowerAll(w[1..])
  }

  function CapitalizeAll(words: seq<string>): (r: seq<string>)
    ensures |r| == |words|
    ensures forall k :: 0 <= k < |words| ==> r[k] == CapitalizeWord(words[k])
  {
    if |words| == 0 then [] else [CapitalizeWord(words[0])] + CapitalizeAll(words[1..])
  }

  /** What title-casing does to the character at `i` of `s`: upper-case at
      the start of a word (the string start or after a space), lower-case
      elsewhere. Spaces map to themselves either way. */
  function TitleChar(s: string, i: nat): char
    requires i < |s|
  {
    if i == 0 || s[i - 1] == ' ' then Upper(s[i]) else Lower(s[i])
  }

  /** `r` is `s` title-cased character by character. */
  predicate IsTitleCaseOf(r: string, s: string) {
    |r| == |s| && forall i :: 0 <= i < |s| ==> r[i] == TitleChar(s, i)
  }

  /** `toTitleCase(str)`: `''` for `undefined` or `''`, otherwise the input
      with every word capitalised and every space kept where it was. */
  function ToTitleCase(str: Option<string>): (r: string)
    ensures str == None || str == Some("") ==> r == ""
    ensures str.Some? ==> IsTitleCaseOf(r, str.value)
  {
    match str
    case None => ""
    case Some(s) =>
      if s == "" then ""
      else
        WordsTitleCased(s);
        Join(CapitalizeAll(Split(s, ' ')), ' ')
  }

  lemma CapitalizeWordCharwise(w: string)
    requires ' ' !in w
    ensures IsTitleCaseOf(CapitalizeWord(w), w)
  {
    if |w| > 0 {
      var r := CapitalizeWord(w);
      forall j | 0 <= j < |w| ensures r[j] == TitleChar(w, j) {
        if j > 0 {
          assert w[j - 1] in w;
          assert r[j] == LowerAll(w[1..])[j - 1];
        }
      }
    }
  }

  /** Splitting on spaces, capitalising each word and re-joining
      title-cases the string character by character. */
  lemma {:induction false} WordsTitleCased(s: string)
    ensures IsTitleCaseOf(Join(CapitalizeAll(Split(s, ' ')), ' '), s)
    decreases |s|
  {
    var i := IndexOf(s, ' ');
    if i == |s| {
      assert ' ' !in s;
      CapitalizeWordCharwise(s);
    } else {
      var word, rest := s[..i], s[i + 1..];
      var restParts := Split(rest, ' ');
      assert Split(s, ' ') == [word] + restParts;
      var caps := CapitalizeAll([word] + restParts);
      var restCaps := CapitalizeAll(restParts);
      assert caps == [CapitalizeWord(word)] + restCaps;
      assert caps[1..] == restCaps;
      var r := Join(caps, ' ');
      var r1 := CapitalizeWord(word);
      var r2 := Join(restCaps, ' ');
      assert r == r1 + [' '] + r2;
      assert ' ' !in word;
      CapitalizeWordCharwise(word);
      WordsTitleCased(rest);
      forall j | 0 <= j < |s| ensures r[j] == TitleChar(s, j) {
        if j < i {
          assert r[j] == r1[j];
          assert TitleChar(s, j) == TitleChar(word, j);
        } else if j > i {
          assert r[j] == r2[j - i - 1];
          assert rest[j - i - 1] == s[j];
          if j > i + 1 {
            assert rest[j - i - 2] == s[j - 1];
          }
        }
      }
    }
  }

  /** Title-casing keeps every space where it was and adds none. */
  lemma SpacesPreserved(s: string, i: nat)
    requires i < |s|
    ensures ToTitleCase(Some(s))[i] == ' ' <==> s[i] == ' '
  {
  }

  /** Applying `toTitleCase` twice gives the same as applying it once. */
  lemma TitleCaseIdempotent(s: string)
    ensures ToTitleCase(Some(ToTitleCase(Some(s)))) == ToTitleCase(Some(s))
  {
    var r := ToTitleCase(Some(s));
    var rr := ToTitleCase(Some(r));
    forall i | 0 <= i < |r| ensures rr[i] == r[i] {
      if i > 0 {
        assert r[i - 1] == ' ' <==> s[i - 1] == ' ';
      }
    }
  }

  /** Mixed-case words come out capitalised: `'hElLo WoRlD'` becomes `'Hello World'`. */
  lemma MixedCaseExample()
    ensures ToTitleCase(Some("hElLo WoRlD")) == "Hello World"
  {
    assert "hElLo WoRlD" == "hElLo" + [' '] + "WoRlD";
    TwoWords("hElLo", "WoRlD");
    CapitalizeExample();
    assert "Hello" + [' '] + "World" == "Hello World";
  }

  /** Two space-free words joined by one space title-case word by word. */
  lemma TwoWords(a: string, b: string)
    requires ' ' !in a && ' ' !in b
    ensures ToTitleCase(Some(a + [' '] + b)) == CapitalizeWord(a) + [' '] + CapitalizeWord(b)
  {
    PartsOfSpace(a, b);
    assert |a + [' '] + b| > 0;
    var caps := CapitalizeAll([a, b]);
    assert caps == [CapitalizeWord(a), CapitalizeWord(b)];
    assert Join(caps, ' ') == caps[0] + [' '] + Join([caps[1]], ' ');
  }

  lemma CapitalizeExample()
    ensures CapitalizeWord("hElLo") == "Hello" && CapitalizeWord("WoRlD") == "World"
  {
    assert LowerAll("ElLo") == "ello";
    assert LowerAll("oRlD") == "orld";
    assert "hElLo"[1..] == "ElLo" && "WoRlD"[1..] == "oRlD";
    assert Upper('h') == 'H' && Upper('W') == 'W';
    assert ['H'] + "ello" == "Hello" && ['W'] + "orld" == "World";
  }

  lemma PartsOfSpace(a: string, b: string)
    requires ' ' !in a && ' ' !in b
    ensures Split(a + [' '] + b, ' ') == [a, b]
  {
    SplitJoin([a, b], ' ');
    assert Join([a, b], ' ') == a + [' '] + Join([b], ' ');
  }
}
