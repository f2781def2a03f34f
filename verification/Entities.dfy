/** The keywords and proper nouns found in a text. */
module Entities {
  import opened Words

  const DOMAIN_KEYWORDS := [
    "Redis", "NATS", "Postgres", "SQL", "Rust", "Go", "Golang", "Python",
    "Kubernetes", "Docker", "Replication", "MemOS", "RAG", "LLM", "Vector",
    "Anti-Entropy", "Consensus", "Distributed", "Shard", "Cluster"
  ]

  predicate Contains(s: string, part: string) {
    exists k :: 0 <= k <= |s| && part <= s[k..]
  }

  predicate IsPunctuation(c: char) {
    c in ".,!?;:\"()[]{}"
  }

  function Cleaned(s: string): string {
    if s == "" then "" else if IsPunctuation(s[0]) then Cleaned(s[1..]) else [s[0]] + Cleaned(s[1..])
  }

  /** The length Go's len reports: that of the UTF-8 encoding. */
  function ByteLength(s: string): nat {
    if s == "" then 0 else EncodedLength(s[0]) + ByteLength(s[1..])
  }

  function EncodedLength(c: char): nat {
    if c < '\U{0080}' then 1 else if c < '\U{0800}' then 2 else if c < '\U{10000}' then 3 else 4
  }

  predicate IsCapitalized(w: string) {
    |w| > 0 && 'A' <= w[0] <= 'Z'
  }

  // ----- What is to be found -----

  predicate Mentioned(lower: char -> char, text: string, keyword: string) {
    keyword in DOMAIN_KEYWORDS && Contains(ToLower(lower, text), ToLower(lower, keyword))
  }

  /** Words `lo` to `hi` are capitalised and no neighbour of theirs is. */
  predicate IsRun(words: seq<string>, lo: int, hi: int) {
    && 0 <= lo < hi <= |words|
    && (forall k :: lo <= k < hi ==> IsCapitalized(words[k]))
    && (lo == 0 || !IsCapitalized(words[lo - 1]))
    && (hi == |words| || !IsCapitalized(words[hi]))
  }

  function Name(words: seq<string>, lo: int, hi: int): string
    requires 0 <= lo <= hi <= |words|
  {
    Join(words[lo..hi])
  }

  /** The name of a run that ends by `end`, unless it is too short. */
  ghost predicate IsName(words: seq<string>, end: int, e: string) {
    exists lo, hi :: IsRun(words, lo, hi) && hi <= end && e == Name(words, lo, hi) && ByteLength(e) > 2
  }

  ghost predicate IsEntity(lower: char -> char, text: string, e: string) {
    var words := Fields(Cleaned(text));
    Mentioned(lower, text, e) || IsName(words, |words|, e)
  }

  // ----- The nested loop -----

  /** A position between two words that does not split a run. */
  predicate IsCut(words: seq<string>, i: int) {
    i <= 0 || i >= |words| || !IsCapitalized(words[i - 1]) || !IsCapitalized(words[i])
  }

  lemma NoNameEndsHere(words: seq<string>, i: int, e: string)
    requires 0 <= i < |words| && !IsCapitalized(words[i]) && IsName(words, i + 1, e)
    ensures IsName(words, i, e)
  {
    var lo, hi :| IsRun(words, lo, hi) && hi <= i + 1 && e == Name(words, lo, hi) && ByteLength(e) > 2;
    assert IsCapitalized(words[hi - 1]);
  }

  /** Between the two ends of a run, no other run ends. */
  lemma OnlyThisName(words: seq<string>, lo: int, hi: int, e: string)
    requires IsRun(words, lo, hi) && IsName(words, hi, e)
    ensures IsName(words, lo, e) || (e == Name(words, lo, hi) && ByteLength(e) > 2)
  {
    var a, b :| IsRun(words, a, b) && b <= hi && e == Name(words, a, b) && ByteLength(e) > 2;
    if b > lo {
      RunsAreApart(words, lo, hi, a, b, b - 1);
    }
  }

  lemma RunsAreApart(words: seq<string>, lo: int, hi: int, a: int, b: int, k: int)
    requires IsRun(words, lo, hi) && IsRun(words, a, b) && lo <= k < hi && a <= k < b
    ensures lo == a && hi == b
  {
  }

  lemma {:induction false} JoinOneMore(ws: seq<string>, w: string)
    requires ws != []
    ensures Join(ws + [w]) == Join(ws) + " " + w
  {
    if |ws| == 1 {
      assert (ws + [w])[1..] == [w];
    } else {
      JoinOneMore(ws[1..], w);
      assert (ws + [w])[1..] == ws[1..] + [w];
    }
  }

  lemma NameOneMore(words: seq<string>, lo: int, hi: int)
    requires 0 <= lo < hi < |words|
    ensures Name(words, lo, hi + 1) == Name(words, lo, hi) + " " + words[hi]
  {
    JoinOneMore(words[lo..hi], words[hi]);
    assert words[lo..hi + 1] == words[lo..hi] + [words[hi]];
  }

  /** The longest run from a capitalised word on, joined. */
  method Extend(words: seq<string>, start: nat) returns (entity: string, last: nat)
    requires start < |words| && IsCut(words, start) && IsCapitalized(words[start])
    ensures start <= last < |words| && IsRun(words, start, last + 1) && entity == Name(words, start, last + 1)
  {
    entity, last := words[start], start;
    var j := start + 1;
    while j < |words|
      invariant start <= last == j - 1 < |words|
      invariant forall k :: start <= k < j ==> IsCapitalized(words[k])
      invariant entity == Name(words, start, j)
    {
      if IsCapitalized(words[j]) {
        NameOneMore(words, start, j);
        entity := entity + " " + words[j];
        last := j;
      } else {
        break;
      }
      j := j + 1;
    }
  }

  method CollectNames(words: seq<string>, found: set<string>) returns (entitiesMap: set<string>)
    ensures forall e :: e in entitiesMap <==> e in found || IsName(words, |words|, e)
  {
    entitiesMap := found;
    var i := 0;
    while i < |words|
      invariant 0 <= i <= |words| && IsCut(words, i)
      invariant forall e :: e in entitiesMap <==> e in found || IsName(words, i, e)
    {
      var start := i;
      if IsCapitalized(words[i]) {
        var entity, last := Extend(words, i);
        i := last;
        if ByteLength(entity) > 2 {
          entitiesMap := entitiesMap + {entity};
        }
        forall e ensures IsName(words, i + 1, e) <==> IsName(words, start, e) || (e == entity && ByteLength(e) > 2) {
          if IsName(words, i + 1, e) {
            OnlyThisName(words, start, i + 1, e);
          }
        }
      } else {
        forall e ensures IsName(words, i + 1, e) <==> IsName(words, i, e) {
          if IsName(words, i + 1, e) {
            NoNameEndsHere(words, i, e);
          }
        }
      }
      i := i + 1;
    }
  }

  method SpotKeywords(lower: char -> char, text: string) returns (entitiesMap: set<string>)
    ensures forall e :: e in entitiesMap <==> Mentioned(lower, text, e)
  {
    entitiesMap := {};
    var lowerText := ToLower(lower, text);
    for k := 0 to |DOMAIN_KEYWORDS|
      invariant forall e :: e in entitiesMap <==> e in DOMAIN_KEYWORDS[..k] && Contains(lowerText, ToLower(lower, e))
    {
      if Contains(lowerText, ToLower(lower, DOMAIN_KEYWORDS[k])) {
        entitiesMap := entitiesMap + {DOMAIN_KEYWORDS[k]};
      }
    }
  }

  /** Ranges over the set in no particular order. */
  method Listed(entitiesMap: set<string>) returns (entities: seq<string>)
    ensures forall e :: e in entities <==> e in entitiesMap
    ensures forall i, j :: 0 <= i < j < |entities| ==> entities[i] != entities[j]
  {
    entities := [];
    var rest := entitiesMap;
    while rest != {}
      invariant forall e :: e in entitiesMap <==> e in entities || e in rest
      invariant forall e :: e in entities ==> e !in rest
      invariant forall i, j :: 0 <= i < j < |entities| ==> entities[i] != entities[j]
      decreases |rest|
    {
      var e :| e in rest;
      entities := entities + [e];
      rest := rest - {e};
    }
  }

  /** Exactly the keywords mentioned and the names of the runs, each once. */
  method ExtractEntities(lower: char -> char, text: string) returns (entities: seq<string>)
    ensures forall e :: e in entities <==> IsEntity(lower, text, e)
    ensures forall i, j :: 0 <= i < j < |entities| ==> entities[i] != entities[j]
  {
    var entitiesMap := SpotKeywords(lower, text);
    entitiesMap := CollectNames(Fields(Cleaned(text)), entitiesMap);
    entities := Listed(entitiesMap);
  }

  // ----- What runs are -----

  /** Every capitalised word lies in a run, and in no other. */
  lemma EachCapitalInOneRun(words: seq<string>, k: nat)
    requires k < |words| && IsCapitalized(words[k])
    ensures exists lo, hi :: IsRun(words, lo, hi) && lo <= k < hi
    ensures forall lo, hi, a, b :: IsRun(words, lo, hi) && lo <= k < hi && IsRun(words, a, b) && a <= k < b ==>
      lo == a && hi == b
  {
    var lo := RunStart(words, k);
    var hi := RunEnd(words, k);
    assert IsRun(words, lo, hi);
    forall lo, hi, a, b | IsRun(words, lo, hi) && lo <= k < hi && IsRun(words, a, b) && a <= k < b
      ensures lo == a && hi == b
    {
      RunsAreApart(words, lo, hi, a, b, k);
    }
  }

  lemma {:induction false} RunStart(words: seq<string>, k: nat) returns (lo: nat)
    requires k < |words| && IsCapitalized(words[k])
    ensures lo <= k && (lo == 0 || !IsCapitalized(words[lo - 1]))
    ensures forall i :: lo <= i <= k ==> IsCapitalized(words[i])
  {
    if k == 0 || !IsCapitalized(words[k - 1]) {
      lo := k;
    } else {
      lo := RunStart(words, k - 1);
    }
  }

  lemma {:induction false} RunEnd(words: seq<string>, k: nat) returns (hi: nat)
    requires k < |words| && IsCapitalized(words[k])
    ensures k < hi <= |words| && (hi == |words| || !IsCapitalized(words[hi]))
    ensures forall i :: k <= i < hi ==> IsCapitalized(words[i])
    decreases |words| - k
  {
    if k + 1 == |words| || !IsCapitalized(words[k + 1]) {
      hi := k + 1;
    } else {
      hi := RunEnd(words, k + 1);
    }
  }

  /** A name can be split back into the words it was joined from. */
  lemma NameKeepsWords(text: string, lo: int, hi: int)
    requires IsRun(Fields(Cleaned(text)), lo, hi)
    ensures Fields(Name(Fields(Cleaned(text)), lo, hi)) == Fields(Cleaned(text))[lo..hi]
  {
    var words := Fields(Cleaned(text));
    FieldsAreWords(Cleaned(text));
    assert AreWords(words[lo..hi]);
    FieldsOfJoin(words[lo..hi]);
  }

  lemma {:induction false} CleanedWithout(s: string, mark: char, t: string)
    requires IsPunctuation(mark)
    ensures Cleaned(s + [mark] + t) == Cleaned(s + t)
  {
    if s == "" {
      assert s + [mark] + t == [mark] + t && s + t == t;
      assert ([mark] + t)[1..] == t;
    } else {
      CleanedWithout(s[1..], mark, t);
      assert s + [mark] + t == [s[0]] + (s[1..] + [mark] + t);
      assert s + t == [s[0]] + (s[1..] + t);
      CleanedFirst(s[0], s[1..] + [mark] + t);
      CleanedFirst(s[0], s[1..] + t);
    }
  }

  lemma CleanedFirst(c: char, s: string)
    ensures Cleaned([c] + s) == (if IsPunctuation(c) then "" else [c]) + Cleaned(s)
  {
    assert ([c] + s)[1..] == s;
  }

  /** Punctuation never separates names: a run goes on across the end of a sentence. */
  lemma NamesIgnorePunctuation(s: string, mark: char, t: string, e: string)
    requires IsPunctuation(mark)
    ensures var v, w := Fields(Cleaned(s + [mark] + t)), Fields(Cleaned(s + t));
      IsName(v, |v|, e) <==> IsName(w, |w|, e)
  {
    CleanedWithout(s, mark, t);
  }

  // ----- What the small tests mean -----

  lemma ContainsExactly(s: string, part: string)
    ensures Contains(s, part) <==> exists before: string, after: string :: s == before + part + after
  {
    if k :| 0 <= k <= |s| && part <= s[k..] {
      assert s == s[..k] + part + s[k + |part|..];
    }
    if before: string, after: string :| s == before + part + after {
      assert s[|before|..] == part + after;
    }
  }

  lemma {:induction false} CleanedExactly(s: string)
    ensures forall c :: c in Cleaned(s) <==> c in s && !IsPunctuation(c)
    ensures (forall c :: c in s ==> !IsPunctuation(c)) ==> Cleaned(s) == s
  {
    if s != "" {
      CleanedExactly(s[1..]);
      assert s == [s[0]] + s[1..];
    }
  }

  ghost predicate IsAscii(s: string) {
    forall c :: c in s ==> c < '\U{0080}'
  }

  lemma AsciiOneMore(c: char, s: string)
    ensures IsAscii([c] + s) <==> c < '\U{0080}' && IsAscii(s)
  {
    assert c in [c] + s && forall d :: d in s ==> d in [c] + s;
  }

  /** ASCII names are as long as they look; others are longer. */
  lemma {:induction false} ByteLengthBounds(s: string)
    ensures |s| <= ByteLength(s) <= 4 * |s|
    ensures IsAscii(s) <==> ByteLength(s) == |s|
  {
    if s != "" {
      ByteLengthBounds(s[1..]);
      AsciiOneMore(s[0], s[1..]);
      assert s == [s[0]] + s[1..];
    }
  }
}
