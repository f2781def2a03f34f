/** Words as the Go library splits and joins them. */
module Words {

  /** The characters that strings.Fields splits at. */
  predicate IsSpace(c: char) {
    || '\t' <= c <= '\r' || c == ' ' || c == '\U{0085}' || c == '\U{00A0}' || c == '\U{1680}'
    || '\U{2000}' <= c <= '\U{200A}' || c == '\U{2028}' || c == '\U{2029}' || c == '\U{202F}'
    || c == '\U{205F}' || c == '\U{3000}'
  }

  function DropSpaces(s: string): (rest: string)
    ensures |rest| <= |s|
    ensures rest != "" ==> !IsSpace(rest[0])
  {
    if s != "" && IsSpace(s[0]) then DropSpaces(s[1..]) else s
  }

  function TakeWord(s: string): (word: string)
    ensures word <= s
  {
    if s != "" && !IsSpace(s[0]) then [s[0]] + TakeWord(s[1..]) else ""
  }

  /** strings.Fields: the maximal runs of non-space characters. */
  function Fields(s: string): seq<string>
    decreases |s|
  {
    var t := DropSpaces(s);
    if t == "" then []
    else
      var w := TakeWord(t);
      assert w != "";
      [w] + Fields(t[|w|..])
  }

  /** strings.Join with one space. */
  function Join(ws: seq<string>): string {
    if ws == [] then "" else if |ws| == 1 then ws[0] else ws[0] + " " + Join(ws[1..])
  }

  predicate IsWord(w: string) {
    w != "" && forall i :: 0 <= i < |w| ==> !IsSpace(w[i])
  }

  predicate AreWords(ws: seq<string>) {
    forall i :: 0 <= i < |ws| ==> IsWord(ws[i])
  }

  lemma {:induction false} TakeWordIsWord(s: string)
    requires s != "" && !IsSpace(s[0])
    ensures IsWord(TakeWord(s))
  {
    if |s| > 1 && !IsSpace(s[1]) {
      TakeWordIsWord(s[1..]);
    } else {
      assert TakeWord(s[1..]) == "";
    }
  }

  lemma {:induction false} FieldsAreWords(s: string)
    ensures AreWords(Fields(s))
    decreases |s|
  {
    var t := DropSpaces(s);
    if t != "" {
      TakeWordIsWord(t);
      FieldsAreWords(t[|TakeWord(t)|..]);
    }
  }

  lemma {:induction false} TakeWordThen(w: string, rest: string)
    requires (forall i :: 0 <= i < |w| ==> !IsSpace(w[i])) && (rest == "" || IsSpace(rest[0]))
    ensures TakeWord(w + rest) == w
  {
    if w != "" {
      TakeWordThen(w[1..], rest);
      assert (w + rest)[1..] == w[1..] + rest;
    } else {
      assert w + rest == rest;
    }
  }

  /** Splitting undoes joining. */
  lemma {:induction false} FieldsOfJoin(ws: seq<string>)
    requires AreWords(ws)
    ensures Fields(Join(ws)) == ws
  {
    if |ws| == 1 {
      TakeWordThen(ws[0], "");
      assert ws[0] + "" == ws[0];
      assert Fields("") == [];
    } else if |ws| > 1 {
      var rest := " " + Join(ws[1..]);
      assert Join(ws) == ws[0] + rest;
      TakeWordThen(ws[0], rest);
      FieldsOfJoin(ws[1..]);
      assert Join(ws)[|ws[0]|..] == rest && rest[1..] == Join(ws[1..]);
      assert DropSpaces(rest) == DropSpaces(Join(ws[1..]));
      FieldsDropSpaces(rest, Join(ws[1..]));
    }
  }

  lemma FieldsDropSpaces(s: string, t: string)
    requires DropSpaces(s) == DropSpaces(t)
    ensures Fields(s) == Fields(t)
  {
  }

  lemma JoinInjective(vs: seq<string>, ws: seq<string>)
    requires AreWords(vs) && AreWords(ws) && Join(vs) == Join(ws)
    ensures vs == ws
  {
    FieldsOfJoin(vs);
    FieldsOfJoin(ws);
  }

  // ----- Lower case -----

  /** A letter-by-letter case mapping that keeps spaces and only spaces as spaces. */
  ghost predicate CaseMapping(lower: char -> char) {
    lower(' ') == ' ' && forall c :: IsSpace(lower(c)) <==> IsSpace(c)
  }

  function ToLower(lower: char -> char, s: string): (t: string)
    ensures |t| == |s| && forall i :: 0 <= i < |s| ==> t[i] == lower(s[i])
  {
    seq(|s|, i requires 0 <= i < |s| => lower(s[i]))
  }

  function LowerWords(lower: char -> char, ws: seq<string>): (vs: seq<string>)
    ensures |vs| == |ws| && forall i :: 0 <= i < |ws| ==> vs[i] == ToLower(lower, ws[i])
  {
    seq(|ws|, i requires 0 <= i < |ws| => ToLower(lower, ws[i]))
  }

  lemma {:induction false} ToLowerOfJoin(lower: char -> char, ws: seq<string>)
    requires CaseMapping(lower)
    ensures ToLower(lower, Join(ws)) == Join(LowerWords(lower, ws))
  {
    if |ws| > 1 {
      ToLowerOfJoin(lower, ws[1..]);
      assert LowerWords(lower, ws)[1..] == LowerWords(lower, ws[1..]);
      assert ToLower(lower, ws[0] + " " + Join(ws[1..])) == ToLower(lower, ws[0]) + " " + ToLower(lower, Join(ws[1..]));
    }
  }

  lemma LowerWordsAreWords(lower: char -> char, ws: seq<string>)
    requires CaseMapping(lower) && AreWords(ws)
    ensures AreWords(LowerWords(lower, ws))
  {
  }

  // ----- The key that retrieval deduplicates by -----

  const EMPTY_KEY := "<empty>"

  function NormalizeContentKey(lower: char -> char, content: string): string {
    var normalized := ToLower(lower, Join(Fields(content)));
    if normalized == "" then EMPTY_KEY else normalized
  }

  /** The words of a text, case aside. */
  function Essence(lower: char -> char, content: string): seq<string> {
    LowerWords(lower, Fields(content))
  }

  lemma NormalizedEssence(lower: char -> char, content: string)
    requires CaseMapping(lower)
    ensures AreWords(Essence(lower, content))
    ensures NormalizeContentKey(lower, content) == if Essence(lower, content) == [] then EMPTY_KEY
      else Join(Essence(lower, content))
  {
    FieldsAreWords(content);
    LowerWordsAreWords(lower, Fields(content));
    ToLowerOfJoin(lower, Fields(content));
    var ws := Essence(lower, content);
    if ws != [] {
      assert ws[0] != "" && Join(ws) != "";
    }
  }

  /**
   Two texts share a key exactly when their words agree, case and spacing aside - or when one is
   blank and the other consists of the single word that stands for blank.
   */
  lemma SameKeyExactly(lower: char -> char, a: string, b: string)
    requires CaseMapping(lower)
    ensures NormalizeContentKey(lower, a) == NormalizeContentKey(lower, b) <==>
      var v, w := Essence(lower, a), Essence(lower, b);
      v == w || (v == [] && w == [EMPTY_KEY]) || (v == [EMPTY_KEY] && w == [])
  {
    var v, w := Essence(lower, a), Essence(lower, b);
    NormalizedEssence(lower, a);
    NormalizedEssence(lower, b);
    EmptyKeyIsWord();
    assert Join([EMPTY_KEY]) == EMPTY_KEY;
    if NormalizeContentKey(lower, a) == NormalizeContentKey(lower, b) {
      JoinInjective(if v == [] then [EMPTY_KEY] else v, if w == [] then [EMPTY_KEY] else w);
    }
  }

  lemma EmptyKeyIsWord()
    ensures AreWords([EMPTY_KEY])
  {
    assert EMPTY_KEY == ['<', 'e', 'm', 'p', 't', 'y', '>'];
  }
}
