/** The AI routes' text handling: the white-labelling of provider names in model
    replies, the word-count gate in front of intent extraction, and the clean-up
    of a reply before it is parsed as JSON. The model call and the JSON parser
    are inputs. */
module AiRoutes {
  import opened Common

  /** The provider names and the labels that replace them, in the order they are applied. */
  const Replacements: seq<(string, string)> := [
    ("Google", "Core"),
    ("Gemini", "Brain"),
    ("Groq", "Neural Engine"),
    ("llama", "Model-X"),
    ("mixtral", "Model-Y"),
    ("openai", "AI"),
    ("ChatGPT", "Assistant")
  ]

  predicate NonEmptyNames(pairs: seq<(string, string)>) {
    forall k :: 0 <= k < |pairs| ==> pairs[k].0 != ""
  }

  /** One pair applied: the name as written, then its lowercase form. */
  function ApplyPair(text: string, pair: (string, string)): string
    requires pair.0 != ""
  {
    ReplaceAll(ReplaceAll(text, pair.0, pair.1), Lower(pair.0), pair.1)
  }

  /** The pairs applied one after another, first to last. */
  function ApplyAll(text: string, pairs: seq<(string, string)>): string
    requires NonEmptyNames(pairs)
  {
    if pairs == [] then text
    else ApplyPair(ApplyAll(text, pairs[..|pairs| - 1]), pairs[|pairs| - 1])
  }

  /** Applying a first pair and then the rest is applying them all. */
  lemma {:induction false} ApplyAllCons(text: string, pairs: seq<(string, string)>)
    requires pairs != [] && NonEmptyNames(pairs)
    ensures ApplyAll(text, pairs) == ApplyAll(ApplyPair(text, pairs[0]), pairs[1..])
    decreases |pairs|
  {
    if |pairs| > 1 {
      var init := pairs[..|pairs| - 1];
      ApplyAllCons(text, init);
      assert init[1..] == pairs[1..][..|pairs[1..]| - 1];
    } else {
      assert pairs[..0] == [];
    }
  }

  /** Neither form of any name occurs in `text`. */
  predicate NoNames(text: string, pairs: seq<(string, string)>) {
    forall k :: 0 <= k < |pairs| ==> !Contains(text, pairs[k].0) && !Contains(text, Lower(pairs[k].0))
  }

  /** `sanitize_response(text)`. */
  method Sanitize(text: string) returns (r: string)
    ensures r == ApplyAll(text, Replacements)
    ensures NoNames(r, Replacements)
  {
    r := text;
    var i := 0;
    while i < |Replacements|
      invariant 0 <= i <= |Replacements|
      invariant r == ApplyAll(text, Replacements[..i])
    {
      var name := Replacements[i].0;
      var replacement := Replacements[i].1;
      r := ReplaceAll(r, name, replacement);
      r := ReplaceAll(r, Lower(name), replacement);
      assert Replacements[..i + 1][..i] == Replacements[..i];
      i := i + 1;
    }
    assert Replacements[..|Replacements|] == Replacements;
    NamesNonEmpty();
    ReplacementsApart();
    NamesGone(text, Replacements);
  }

  /** A text mentioning none of the names, in either form, comes back unchanged. */
  lemma {:induction false} UnchangedWithoutNames(text: string, pairs: seq<(string, string)>)
    requires NonEmptyNames(pairs)
    requires NoNames(text, pairs)
    ensures ApplyAll(text, pairs) == text
    decreases |pairs|
  {
    if pairs != [] {
      var init := pairs[..|pairs| - 1];
      var name := pairs[|pairs| - 1].0;
      var replacement := pairs[|pairs| - 1].1;
      assert NoNames(text, init) by {
        forall k | 0 <= k < |init| ensures !Contains(text, init[k].0) && !Contains(text, Lower(init[k].0)) {
          assert init[k] == pairs[k];
        }
      }
      UnchangedWithoutNames(text, init);
      ReplaceAllAbsent(text, name, replacement);
      assert Lower(name) != "";
      ReplaceAllAbsent(text, Lower(name), replacement);
    }
  }

  /** Every label is non-empty and cannot overlap either form of any name. */
  predicate LabelsApart(pairs: seq<(string, string)>) {
    forall k, j :: 0 <= k < |pairs| && 0 <= j < |pairs| ==>
      pairs[j].1 != "" && Apart(pairs[k].0, pairs[j].1) && Apart(Lower(pairs[k].0), pairs[j].1)
  }

  /** When no label can overlap a name, applying the pairs removes every form of
      every name: a name already removed is not rebuilt by a later label, next to
      whatever text surrounds it. */
  lemma {:induction false} NamesGone(text: string, pairs: seq<(string, string)>)
    requires NonEmptyNames(pairs) && LabelsApart(pairs)
    ensures NoNames(ApplyAll(text, pairs), pairs)
    decreases |pairs|
  {
    if pairs != [] {
      var n := |pairs| - 1;
      var init := pairs[..n];
      var name, tag := pairs[n].0, pairs[n].1;
      assert NonEmptyNames(init) && LabelsApart(init) by {
        forall k | 0 <= k < |init| ensures init[k] == pairs[k] { }
      }
      NamesGone(text, init);
      var s0 := ApplyAll(text, init);
      var s1 := ReplaceAll(s0, name, tag);
      assert tag != "" && Lower(name) != "";
      forall k | 0 <= k < |pairs| ensures !Contains(ApplyPair(s0, pairs[n]), pairs[k].0)
                                      && !Contains(ApplyPair(s0, pairs[n]), Lower(pairs[k].0))
      {
        var q := pairs[k].0;
        assert q != "" && Lower(q) != "";
        if k < n {
          assert init[k] == pairs[k];
          ReplaceAllAvoids(s0, name, tag, q);
          ReplaceAllAvoids(s0, name, tag, Lower(q));
        } else {
          ReplaceAllAvoids(s0, name, tag, q);
        }
        ReplaceAllAvoids(s1, Lower(name), tag, q);
        ReplaceAllAvoids(s1, Lower(name), tag, Lower(q));
      }
    }
  }

  /** A name form that meets the two-character test against every label. */
  lemma ApartFromLabels(q: string)
    requires |q| >= 2
    requires forall j :: 0 <= j < |Replacements| ==>
      (forall e :: 0 <= e < |q| && q[e] == Replacements[j].1[0] ==> e + 1 < |q| && q[e + 1] != Replacements[j].1[1])
    requires forall j :: 0 <= j < |Replacements| ==>
      (forall d :: 1 <= d < |Replacements[j].1| && Replacements[j].1[d] == q[0] ==>
         d + 1 < |Replacements[j].1| && Replacements[j].1[d + 1] != q[1])
    ensures forall j :: 0 <= j < |Replacements| ==> Apart(q, Replacements[j].1)
  {
    forall j | 0 <= j < |Replacements| ensures Apart(q, Replacements[j].1) {
      ApartByPairs(q, Replacements[j].1);
    }
  }

  /** The labels the route uses cannot overlap any provider name. */
  lemma ReplacementsApart()
    ensures LabelsApart(Replacements)
  {
    forall k | 0 <= k < |Replacements|
      ensures forall j :: 0 <= j < |Replacements| ==>
        Apart(Replacements[k].0, Replacements[j].1) && Apart(Lower(Replacements[k].0), Replacements[j].1)
    {
      NameApart(k);
    }
  }

  /** Both forms of provider name `k` are apart from every label. */
  lemma NameApart(k: int)
    requires 0 <= k < |Replacements|
    ensures forall j :: 0 <= j < |Replacements| ==>
      Apart(Replacements[k].0, Replacements[j].1) && Apart(Lower(Replacements[k].0), Replacements[j].1)
  {
    var name := Replacements[k].0;
    if k == 0 {
      assert Lower(name) == "google";
      GoogleApart();
    } else if k == 1 {
      assert Lower(name) == "gemini";
      GeminiApart();
    } else if k == 2 {
      assert Lower(name) == "groq";
      GroqApart();
    } else if k == 3 {
      assert Lower(name) == "llama";
      LlamaApart();
    } else if k == 4 {
      assert Lower(name) == "mixtral";
      MixtralApart();
    } else if k == 5 {
      assert Lower(name) == "openai";
      OpenaiApart();
    } else {
      assert Lower(name) == "chatgpt";
      ChatGptApart();
    }
  }

  // One lemma per provider: each is `ApartFromLabels` for that provider's two
  // forms. They are kept apart, rather than one lemma with a case split, so that
  // each proof stays small for the solver.

  lemma GoogleApart()
    ensures forall j :: 0 <= j < |Replacements| ==> Apart("Google", Replacements[j].1) && Apart("google", Replacements[j].1)
  {
    ApartFromLabels("Google");
    ApartFromLabels("google");
  }

  lemma GeminiApart()
    ensures forall j :: 0 <= j < |Replacements| ==> Apart("Gemini", Replacements[j].1) && Apart("gemini", Replacements[j].1)
  {
    ApartFromLabels("Gemini");
    ApartFromLabels("gemini");
  }

  lemma GroqApart()
    ensures forall j :: 0 <= j < |Replacements| ==> Apart("Groq", Replacements[j].1) && Apart("groq", Replacements[j].1)
  {
    ApartFromLabels("Groq");
    ApartFromLabels("groq");
  }

  lemma LlamaApart()
    ensures forall j :: 0 <= j < |Replacements| ==> Apart("llama", Replacements[j].1)
  {
    ApartFromLabels("llama");
  }

  lemma MixtralApart()
    ensures forall j :: 0 <= j < |Replacements| ==> Apart("mixtral", Replacements[j].1)
  {
    ApartFromLabels("mixtral");
  }

  lemma OpenaiApart()
    ensures forall j :: 0 <= j < |Replacements| ==> Apart("openai", Replacements[j].1)
  {
    ApartFromLabels("openai");
  }

  lemma ChatGptApart()
    ensures forall j :: 0 <= j < |Replacements| ==> Apart("ChatGPT", Replacements[j].1) && Apart("chatgpt", Replacements[j].1)
  {
    ApartFromLabels("ChatGPT");
    ApartFromLabels("chatgpt");
  }

  lemma NamesNonEmpty()
    ensures NonEmptyNames(Replacements)
  {
  }

  /** Both forms of a name give its label: "Google" and "google" each become "Core". */
  lemma GoogleBecomesCore()
    ensures ApplyAll("Google", Replacements) == "Core"
    ensures ApplyAll("google", Replacements) == "Core"
  {
    NamesNonEmpty();
    ApplyAllCons("Google", Replacements);
    ApplyAllCons("google", Replacements);
    assert ReplaceAll("Google", "Google", "Core") == "Core" + ReplaceAll("", "Google", "Core");
    assert ReplaceAll("google", "Google", "Core") == "google" by {
      assert !Contains("google", "Google") by {
        assert !OccursAt("google", "Google", 0) by { assert "google"[0] != "Google"[0]; }
      }
      ReplaceAllAbsent("google", "Google", "Core");
    }
    assert ReplaceAll("google", "google", "Core") == "Core" + ReplaceAll("", "google", "Core");
    assert Lower("Google") == "google";
    assert ApplyPair("Google", Replacements[0]) == "Core";
    assert ApplyPair("google", Replacements[0]) == "Core";
    CoreHasNoOtherName();
    UnchangedWithoutNames("Core", Replacements[1..]);
  }

  lemma CoreHasNoOtherName()
    ensures NoNames("Core", Replacements[1..])
  {
    var rest := Replacements[1..];
    forall k | 0 <= k < |rest| ensures !Contains("Core", rest[k].0) && !Contains("Core", Lower(rest[k].0)) {
      if k == 1 {
        assert !OccursAt("Core", "Groq", 0) by { assert "Core"[0] != "Groq"[0]; }
        assert Lower("Groq") == "groq";
        assert !OccursAt("Core", "groq", 0) by { assert "Core"[0] != "groq"[0]; }
      } else {
        assert |rest[k].0| > 4;
      }
    }
  }

  /** Matching is case-sensitive apart from the two forms: "GEMINI" survives. */
  lemma UppercaseSurvives()
    ensures ApplyAll("GEMINI", Replacements) == "GEMINI"
  {
    NamesNonEmpty();
    forall k | 0 <= k < |Replacements|
      ensures !Contains("GEMINI", Replacements[k].0) && !Contains("GEMINI", Lower(Replacements[k].0))
    {
      NameNotInUppercase(k);
    }
    UnchangedWithoutNames("GEMINI", Replacements);
  }

  /** No provider name, in either form, occurs in "GEMINI". */
  lemma NameNotInUppercase(k: int)
    requires 0 <= k < |Replacements|
    ensures !Contains("GEMINI", Replacements[k].0) && !Contains("GEMINI", Lower(Replacements[k].0))
  {
    var name := Replacements[k].0;
    if k == 0 || k == 1 {
      assert Lower("Google") == "google" && Lower("Gemini") == "gemini";
      assert !OccursAt("GEMINI", name, 0) by { assert "GEMINI"[1] != name[1]; }
      assert !OccursAt("GEMINI", Lower(name), 0) by { assert "GEMINI"[0] != Lower(name)[0]; }
    } else if k == 2 {
      assert Lower("Groq") == "groq";
      forall i | 0 <= i <= 2 ensures !OccursAt("GEMINI", "Groq", i) && !OccursAt("GEMINI", "groq", i) {
        assert "GEMINI"[i + 1] != 'r';
      }
    } else if k == 3 {
      assert Lower("llama") == "llama";
      forall i | 0 <= i <= 1 ensures !OccursAt("GEMINI", "llama", i) {
        assert "GEMINI"[i] != 'l';
      }
    } else if k == 5 {
      assert Lower("openai") == "openai";
      assert !OccursAt("GEMINI", "openai", 0) by { assert "GEMINI"[0] != 'o'; }
    } else {
      assert |name| > 6;
    }
  }

  // ---------------------------------------------------------------- intent extraction

  /** The query is long enough to ask the model for an intent: more than two words. */
  predicate WantsIntent(q: string) {
    WordCount(q) > 2
  }

  /** Fence markers removed and surrounding whitespace trimmed. */
  function CleanReply(reply: string): (clean: string)
    ensures !Contains(clean, "```")
  {
    var noFence := ReplaceAll(ReplaceAll(reply, "```json", ""), "```", "");
    NoFenceLeft(ReplaceAll(reply, "```json", ""));
    var clean := Trim(Python, noFence);
    SliceKeepsAbsent(noFence, clean, "```");
    clean
  }

  /** The intent of `ai_movie_search`: None for a short query; otherwise what the
      parser makes of the cleaned reply, and None when the model call or the
      parse fails. */
  function SearchIntent<J>(q: string, reply: Option<string>, parse: string -> Option<J>): (intent: Option<J>)
    ensures !WantsIntent(q) ==> intent.None?
    ensures WantsIntent(q) && reply.None? ==> intent.None?
    ensures WantsIntent(q) && reply.Some? ==> intent == parse(CleanReply(reply.value))
  {
    if !WantsIntent(q) then None
    else if reply.None? then None
    else parse(CleanReply(reply.value))
  }

  /** A word followed by nothing or by whitespace adds one to the count. */
  lemma {:induction false} WordThenRest(w: string, rest: string)
    requires IsWord(w)
    requires rest == [] || IsSpace(Python, rest[0])
    ensures WordCount(w + rest) == 1 + WordCount(rest)
    decreases |w|
  {
    var s := w + rest;
    assert s[1..] == w[1..] + rest;
    if |w| > 1 {
      WordThenRest(w[1..], rest);
    }
  }

  predicate IsWord(w: string) {
    w != [] && forall i :: 0 <= i < |w| ==> !IsSpace(Python, w[i])
  }

  /** Words joined by single spaces are counted one each, so such a query is sent
      for intent extraction exactly when it has more than two words. */
  lemma {:induction false} JoinedWordCount(words: seq<string>)
    requires forall k :: 0 <= k < |words| ==> IsWord(words[k])
    ensures WordCount(Join(words, " ")) == |words|
    ensures WantsIntent(Join(words, " ")) <==> |words| > 2
    decreases |words|
  {
    if |words| == 1 {
      WordThenRest(words[0], "");
      assert words[0] + "" == words[0];
    } else if |words| > 1 {
      var rest := Join(words[1..], " ");
      JoinedWordCount(words[1..]);
      assert forall k :: 0 <= k < |words[1..]| ==> words[1..][k] == words[k + 1];
      WordThenRest(words[0], " " + rest);
      assert WordCount(" " + rest) == WordCount(rest) by {
        assert (" " + rest)[1..] == rest;
      }
      assert Join(words, " ") == words[0] + (" " + rest);
    }
  }

  /** Number of leading backticks. */
  function Ticks(s: string): (n: nat)
    ensures n <= |s|
  {
    if s != [] && s[0] == '`' then 1 + Ticks(s[1..]) else 0
  }

  /** Removing "```" leaves a leading run of backticks shortened to its length
      modulo three. */
  lemma {:induction false} TicksAfterRemoval(s: string)
    ensures Ticks(ReplaceAll(s, "```", "")) == Ticks(s) % 3
    decreases |s|
  {
    var r := ReplaceAll(s, "```", "");
    if |s| < 3 {
      assert r == s;
      assert Ticks(s) < 3;
    } else if s[..3] == "```" {
      assert r == "" + ReplaceAll(s[3..], "```", "");
      assert r == ReplaceAll(s[3..], "```", "");
      TicksAfterRemoval(s[3..]);
      TicksOfFence(s);
    } else {
      assert r == [s[0]] + ReplaceAll(s[1..], "```", "");
      TicksAfterRemoval(s[1..]);
      if s[0] == '`' {
        TicksBelowThree(s);
      }
    }
  }

  /** A text that starts with "```" has three more leading backticks than the rest. */
  lemma TicksOfFence(s: string)
    requires |s| >= 3 && s[..3] == "```"
    ensures Ticks(s) == 3 + Ticks(s[3..])
  {
    assert s[..3][0] == s[0] && s[..3][1] == s[1] && s[..3][2] == s[2];
    var t1, t2 := s[1..], s[2..];
    assert t1[0] == '`' && t1[1..] == t2;
    assert t2[0] == '`' && t2[1..] == s[3..];
    assert Ticks(t2) == 1 + Ticks(s[3..]);
    assert Ticks(t1) == 1 + Ticks(t2);
  }

  /** A text that does not start with "```" starts with at most two backticks. */
  lemma TicksBelowThree(s: string)
    requires |s| >= 3 && s[..3] != "```"
    ensures Ticks(s) < 3
  {
    assert s[1..][1..] == s[2..];
    assert s[..3] == [s[0], s[1], s[2]];
    if s[0] == '`' && s[1] == '`' {
      assert s[2] != '`';
      assert Ticks(s[2..]) == 0;
    }
  }

  /** No "```" is left once every "```" has been removed. */
  lemma {:induction false} NoFenceLeft(s: string)
    ensures !Contains(ReplaceAll(s, "```", ""), "```")
    decreases |s|
  {
    var r := ReplaceAll(s, "```", "");
    if |s| < 3 {
      assert r == s;
    } else if s[..3] == "```" {
      assert r == "" + ReplaceAll(s[3..], "```", "");
      assert r == ReplaceAll(s[3..], "```", "");
      NoFenceLeft(s[3..]);
    } else {
      NoFenceLeft(s[1..]);
      var t := ReplaceAll(s[1..], "```", "");
      assert r == [s[0]] + t;
      TicksAfterRemoval(s[1..]);
      if s[0] == '`' {
        TicksBelowThree(s);
      }
      ConsNoFence(s[0], t);
    }
  }

  /** Putting one character in front of a text without "```" creates one only when
      it is a backtick followed by two more. */
  lemma ConsNoFence(c: char, t: string)
    requires !Contains(t, "```")
    requires c == '`' ==> Ticks(t) < 2
    ensures !Contains([c] + t, "```")
  {
    var u := [c] + t;
    forall i | 0 <= i <= |u| - 3 ensures !OccursAt(u, "```", i) {
      if i > 0 {
        assert u[i..i + 3] == t[i - 1..i + 2];
        assert !OccursAt(t, "```", i - 1);
      } else {
        assert u[0] == c && u[1] == t[0] && u[2] == t[1];
        if c == '`' && t[0] == '`' {
          assert Ticks(t) == 1 + Ticks(t[1..]);
          assert t[1..][0] == t[1];
          assert t[1] != '`';
        }
      }
    }
  }

  /** A piece of a text without `p` does not contain `p` either. */
  lemma SliceKeepsAbsent(s: string, piece: string, p: string)
    requires !Contains(s, p)
    requires exists i, j :: 0 <= i <= j <= |s| && piece == s[i..j]
    ensures !Contains(piece, p)
  {
    var i, j :| 0 <= i <= j <= |s| && piece == s[i..j];
    forall k | 0 <= k <= |piece| - |p| ensures !OccursAt(piece, p, k) {
      SliceOfSlice(s, i, j, k, k + |p|);
      assert !OccursAt(s, p, i + k);
    }
  }

  lemma SliceOfSlice(s: string, i: int, j: int, a: int, b: int)
    requires 0 <= i <= j <= |s| && 0 <= a <= b <= j - i
    ensures s[i..j][a..b] == s[i + a..i + b]
  {
    var l, r := s[i..j][a..b], s[i + a..i + b];
    assert |l| == |r|;
    forall m | 0 <= m < |l| ensures l[m] == r[m] {
      assert l[m] == s[i..j][a + m] == s[i + a + m];
    }
  }
}
