/**
 * ItemUtils: string helpers over item names and registry names ("mod:path"): the
 * iron-variant test, the two halves of a registry name, the tier rewrite and its
 * inverse, the human-readable title, the normalised name and the tier-name test.
 */
module ItemUtils {
  import opened JavaStrings
  import opened Wrappers
  import opened VariantRegistry
  import opened EnderiteColorCache

  /** `isIronVariant`: the lowercased name mentions iron but is neither iron ore nor an iron block. */
  predicate IsIronVariant(itemName: string)
  {
    var lower := Lower(itemName);
    Contains(lower, "iron") && !Contains(lower, "iron_ore") && !Contains(lower, "iron_block")
  }

  /** The test ignores case. */
  lemma IronVariantIgnoresCase(itemName: string)
    ensures IsIronVariant(itemName) == IsIronVariant(Lower(itemName))
  {
    LowerNoCapitals(Lower(itemName));
  }

  /** An iron tool is an iron variant, whatever the case of its name. */
  lemma IronToolIsIronVariant()
    ensures IsIronVariant("Iron_Sword")
  {
    var sword := Lower("Iron_Sword");
    assert sword == "iron_sword";
    assert OccursAt(sword, "iron", 0);
    MissingCharNotContained(sword, "iron_ore", 'e');
    MissingCharNotContained(sword, "iron_block", 'b');
  }

  /** Iron ore, iron blocks and items without iron are not iron variants. */
  lemma OreAndBlocksAreNotIronVariants()
    ensures !IsIronVariant("deepslate_iron_ore") && !IsIronVariant("IRON_BLOCK") && !IsIronVariant("gold_sword")
  {
    assert !IsIronVariant("deepslate_iron_ore") by {
      var ore := Lower("deepslate_iron_ore");
      assert ore == "deepslate_iron_ore";
      assert OccursAt(ore, "iron_ore", 10);
    }
    assert !IsIronVariant("IRON_BLOCK") by {
      var block := Lower("IRON_BLOCK");
      assert block == "iron_block";
      assert OccursAt(block, "iron_block", 0);
    }
    assert !IsIronVariant("gold_sword") by {
      var gold := Lower("gold_sword");
      assert gold == "gold_sword";
      MissingCharNotContained(gold, "iron", 'i');
    }
  }

  /** Every character is a colon (the empty text included). */
  predicate AllColons(s: string)
  {
    forall i :: 0 <= i < |s| ==> s[i] == ':'
  }

  /**
   * `split(":")` on a name that has a colon: the first piece exists unless the name is
   * all colons and is the text before the first colon; the second exists unless
   * nothing but colons follows the first one and is the text up to the next colon.
   */
  lemma SplitAtColon(s: string)
    requires ':' in s
    ensures var parts := JavaSplit(s, {':'});
            && (|parts| > 0 <==> !AllColons(s))
            && (|parts| > 0 ==> parts[0] == UpTo(s, ':'))
            && (|parts| > 1 <==> !AllColons(After(s, ':')))
            && (|parts| > 1 ==> parts[1] == UpTo(After(s, ':'), ':'))
  {
    var seps := {':'};
    var k := IndexOf(s, ':');
    assert s[k] in seps;
    var segs := Segments(s, seps);
    var parts := JavaSplit(s, seps);
    SplitAtFirstSeparator(s, ':');
    assert |parts| > 0 <==> !AllColons(s) by {
      JavaSplitLength(s, seps, 0);
      SegmentsAllEmpty(s, seps);
    }
    assert |parts| > 0 ==> parts[0] == UpTo(s, ':') by {
      JavaSplitLength(s, seps, 0);
    }
    var rest := Segments(After(s, ':'), seps);
    assert forall j :: 1 <= j < |segs| ==> segs[j] == rest[j - 1];
    assert |parts| > 1 <==> !AllColons(After(s, ':')) by {
      JavaSplitLength(s, seps, 1);
      SegmentsAllEmpty(After(s, ':'), seps);
      assert (exists j :: 1 <= j < |segs| && segs[j] != []) <==> (exists j :: 0 <= j < |rest| && rest[j] != []) by {
        if exists j :: 0 <= j < |rest| && rest[j] != [] {
          var j :| 0 <= j < |rest| && rest[j] != [];
          assert segs[j + 1] == rest[j];
        }
      }
    }
    assert |parts| > 1 ==> parts[1] == UpTo(After(s, ':'), ':') by {
      JavaSplitLength(s, seps, 1);
      SplitAtFirstSeparator(After(s, ':'), ':');
      if |parts| > 1 {
        assert parts[1] == segs[1] == rest[0];
      }
    }
  }

  /**
   * `extractModId`: "minecraft" for a name without ':'; otherwise the first piece of
   * `split(":")`, which is the text before the first colon. A name made only of colons
   * splits into nothing and `[0]` throws.
   */
  function ExtractModId(registryName: string): (r: Result<string>)
    ensures ':' !in registryName ==> r == Ok("minecraft")
    ensures r.Err? <==> ':' in registryName && AllColons(registryName)
    ensures r.Err? ==> r.error == IndexOutOfBounds
    ensures ':' in registryName && r.Ok? ==> r.value == UpTo(registryName, ':')
  {
    if ':' in registryName then
      var parts := JavaSplit(registryName, {':'});
      SplitAtColon(registryName);
      if |parts| > 0 then Ok(parts[0]) else Err(IndexOutOfBounds)
    else Ok("minecraft")
  }

  /**
   * `extractItemPath`: the name itself when it has no ':'; otherwise the second piece of
   * `split(":")`, the text between the first and the next colon. When only colons (or
   * nothing) follow the first colon, as in "mod:", `[1]` throws.
   */
  function ExtractItemPath(registryName: string): (r: Result<string>)
    ensures ':' !in registryName ==> r == Ok(registryName)
    ensures ':' in registryName ==> (r.Err? <==> AllColons(After(registryName, ':')))
    ensures r.Err? ==> r.error == IndexOutOfBounds
    ensures ':' in registryName && r.Ok? ==> r.value == UpTo(After(registryName, ':'), ':')
  {
    if ':' in registryName then
      var parts := JavaSplit(registryName, {':'});
      SplitAtColon(registryName);
      if |parts| > 1 then Ok(parts[1]) else Err(IndexOutOfBounds)
    else Ok(registryName)
  }

  /** A registry name "mod:path" built from colon-free parts, with a non-empty path, splits back into them. */
  lemma RegistryNameRoundTrip(modId: string, path: string)
    requires ':' !in modId && ':' !in path && path != []
    ensures ExtractModId(modId + ":" + path) == Ok(modId)
    ensures ExtractItemPath(modId + ":" + path) == Ok(path)
  {
    var s := modId + ":" + path;
    IndexOfBefore(modId, ':', path);
    assert s[|modId|] == ':';
    assert s[..|modId|] == modId;
    assert s[|modId| + 1..] == path;
    assert path[0] != ':';
  }

  /** "mod:" has a mod id (when the mod part is not empty) but no item path. */
  lemma ItemPathNeedsPath(modId: string)
    requires ':' !in modId
    ensures ExtractItemPath(modId + ":") == Err(IndexOutOfBounds)
    ensures modId != [] ==> ExtractModId(modId + ":") == Ok(modId)
    ensures modId == [] ==> ExtractModId(modId + ":") == Err(IndexOutOfBounds)
  {
    var s := modId + ":";
    IndexOfBefore(modId, ':', []);
    assert s == modId + [':'] + [];
    assert s[|modId|] == ':';
    assert s[..|modId|] == modId;
    assert s[|modId| + 1..] == [];
    if modId != [] {
      assert s[0] == modId[0];
    }
  }

  /**
   * `toVariantName`: every "iron" replaced by the lowercased tier. The iron tier leaves a
   * name as it is, and a tier name of four letters or more never shortens it.
   */
  function ToVariantName(itemName: string, tier: string): (r: string)
    ensures Lower(tier) == "iron" ==> r == itemName
    ensures |tier| >= 4 ==> |r| >= |itemName|
    ensures |tier| == 4 ==> |r| == |itemName|
  {
    ReplaceAll(itemName, "iron", Lower(tier))
  }

  /** A name without "iron" is kept; a leading "iron" becomes the tier, as iron_sword becomes enderite_sword. */
  lemma ToVariantNameRewrites(rest: string, tier: string)
    requires !Contains(rest, "iron")
    ensures ToVariantName(rest, tier) == rest
    ensures ToVariantName("iron" + rest, tier) == Lower(tier) + rest
  {
    ReplaceAllAbsent(rest, "iron", Lower(tier));
    ReplaceAllAtFront("iron", rest, Lower(tier));
  }

  /**
   * `extractBaseItemName`: "enderite" is checked before "netherite", on the lowercased
   * name, but the replacement by "iron" is case-sensitive.
   */
  function ExtractBaseItemName(variantName: string): (r: string)
    ensures |r| <= |variantName|
    ensures r != variantName ==> Contains(Lower(variantName), "enderite") || Contains(Lower(variantName), "netherite")
  {
    var lower := Lower(variantName);
    if Contains(lower, "enderite") then ReplaceAll(variantName, "enderite", "iron")
    else if Contains(lower, "netherite") then ReplaceAll(variantName, "netherite", "iron")
    else variantName
  }

  /** A name with no lower-case letter comes back unchanged, even "ENDERITE_SWORD". */
  lemma ExtractBaseKeepsUpperCase(variantName: string)
    requires forall i :: 0 <= i < |variantName| ==> !('a' <= variantName[i] <= 'z')
    ensures ExtractBaseItemName(variantName) == variantName
  {
    assert 'e' !in variantName;
    MissingCharNotContained(variantName, "enderite", 'e');
    MissingCharNotContained(variantName, "netherite", 'e');
    ReplaceAllAbsent(variantName, "enderite", "iron");
    ReplaceAllAbsent(variantName, "netherite", "iron");
  }

  /** Upper-case variants are not mapped back: the test sees the tier, the replacement does not. */
  lemma UpperCaseVariantKept()
    ensures ExtractBaseItemName("ENDERITE_SWORD") == "ENDERITE_SWORD"
    ensures Contains(Lower("ENDERITE_SWORD"), "enderite")
  {
    ExtractBaseKeepsUpperCase("ENDERITE_SWORD");
    assert Lower("ENDERITE_SWORD") == "enderite_sword";
    assert OccursAt(Lower("ENDERITE_SWORD"), "enderite", 0);
  }

  /** The enderite variant of "iron" + rest maps back to the iron name. */
  lemma BaseOfEnderiteVariant(rest: string)
    requires !Contains(rest, "iron") && !Contains(rest, "enderite")
    ensures ExtractBaseItemName(ToVariantName("iron" + rest, "Enderite")) == "iron" + rest
  {
    assert Lower("Enderite") == "enderite";
    ToVariantNameRewrites(rest, "Enderite");
    var v := "enderite" + rest;
    assert Lower(v)[..8] == "enderite";
    assert OccursAt(Lower(v), "enderite", 0);
    ReplaceAllAtFront("enderite", rest, "iron");
    ReplaceAllAbsent(rest, "enderite", "iron");
  }

  /**
   * The netherite variant of "iron" + rest maps back to the iron name, provided the
   * enderite test cannot fire first (no 'd' in the lowercased rest).
   */
  lemma BaseOfNetheriteVariant(rest: string)
    requires !Contains(rest, "iron") && !Contains(rest, "netherite") && 'd' !in Lower(rest)
    ensures ExtractBaseItemName(ToVariantName("iron" + rest, "Netherite")) == "iron" + rest
  {
    assert Lower("Netherite") == "netherite";
    ToVariantNameRewrites(rest, "Netherite");
    var v := "netherite" + rest;
    assert Lower(v) == "netherite" + Lower(rest);
    MissingCharNotContained(Lower(v), "enderite", 'd');
    assert Lower(v)[..9] == "netherite";
    assert OccursAt(Lower(v), "netherite", 0);
    ReplaceAllAtFront("netherite", rest, "iron");
    ReplaceAllAbsent(rest, "netherite", "iron");
  }

  /** A word with its first letter upper-cased and the rest lower-cased. */
  function CapWord(w: string): (r: string)
    ensures |r| == |w|
  {
    if w == [] then [] else [ToUpperChar(w[0])] + Lower(w[1..])
  }

  function Caps(words: seq<string>): (r: seq<string>)
  {
    seq(|words|, j requires 0 <= j < |words| => CapWord(words[j]))
  }

  /** The length `humanizeName` compares against: the letters without '_', plus one per gap between pieces. */
  function HumanizeTotal(name: string): int
  {
    |ReplaceAll(name, "_", "")| + |JavaSplit(name, {'_'})| - 1
  }

  /** One round of the loop: a non-empty word is appended capitalised, then a space while the text is shorter than `total`. */
  function HumanizeStep(acc: string, word: string, total: int): string
  {
    if word == [] then acc
    else
      var a := acc + CapWord(word);
      if |a| < total then a + " " else a
  }

  function HumanizeFold(words: seq<string>, total: int): string
  {
    if words == [] then [] else HumanizeStep(HumanizeFold(words[..|words| - 1], total), words[|words| - 1], total)
  }

  /** What `humanizeName` returns, as written. */
  function Humanized(name: string): string
  {
    HumanizeFold(JavaSplit(name, {'_'}), HumanizeTotal(name))
  }

  /** `humanizeName`: the loop over the '_'-pieces of the name. */
  method HumanizeName(itemName: string) returns (result: string)
    ensures result == Humanized(itemName)
  {
    var words := JavaSplit(itemName, {'_'});
    var total := |ReplaceAll(itemName, "_", "")| + |words| - 1;
    result := "";
    var i := 0;
    while i < |words|
      invariant 0 <= i <= |words|
      invariant result == HumanizeFold(words[..i], total)
    {
      var word := words[i];
      ghost var acc := result;
      HumanizeFoldStep(words, i, total);
      if |word| > 0 {
        result := result + CapWord(word);
        if |result| < total {
          result := result + " ";
        }
      }
      assert result == HumanizeStep(acc, word, total);
      i := i + 1;
    }
    assert words[..|words|] == words;
    assert total == HumanizeTotal(itemName);
  }

  /** The fold over one more word is one more step. */
  lemma HumanizeFoldStep(words: seq<string>, i: int, total: int)
    requires 0 <= i < |words|
    ensures HumanizeFold(words[..i + 1], total) == HumanizeStep(HumanizeFold(words[..i], total), words[i], total)
  {
    var pre := words[..i + 1];
    assert pre[..|pre| - 1] == words[..i] && pre[|pre| - 1] == words[i];
  }

  /** No piece between underscores is empty: no leading, trailing or doubled '_'. */
  predicate NoEmptyPieces(name: string)
  {
    forall j :: 0 <= j < |Segments(name, {'_'})| ==> Segments(name, {'_'})[j] != []
  }

  /** After `i` non-empty words the text is the first `i` capitalised words joined by spaces, with a space after all but the last. */
  lemma {:induction false} HumanizePrefix(words: seq<string>, total: int, i: nat)
    requires forall j :: 0 <= j < |words| ==> words[j] != []
    requires total == SumLen(words) + |words| - 1
    requires 1 <= i <= |words|
    ensures |Join(Caps(words[..i]), " ")| == SumLen(words[..i]) + i - 1
    ensures HumanizeFold(words[..i], total) == Join(Caps(words[..i]), " ") + (if i < |words| then " " else "")
    decreases i
  {
    var pre, init, w := words[..i], words[..i - 1], words[i - 1];
    assert pre == init + [w];
    assert pre[..i - 1] == init;
    assert SumLen(pre) == SumLen(init) + |w|;
    SumLenPrefix(words, i);
    var acc := HumanizeFold(init, total);
    assert HumanizeFold(pre, total) == HumanizeStep(acc, w, total);
    CapsAppend(init, w);
    JoinAppend(Caps(init), CapWord(w), " ");
    if i == 1 {
      assert init == [];
      assert acc == [];
    } else {
      HumanizePrefix(words, total, i - 1);
      assert acc == Join(Caps(init), " ") + " ";
    }
    if i == |words| {
      assert pre == words;
    }
  }

  lemma CapsAppend(words: seq<string>, w: string)
    ensures Caps(words + [w]) == Caps(words) + [CapWord(w)]
  {
  }

  lemma NonEmptyAppend(words: seq<string>, w: string)
    ensures NonEmpty(words + [w]) == NonEmpty(words) + (if w == [] then [] else [w])
  {
    assert (words + [w])[..|words|] == words;
  }

  /** For names without empty pieces the title is the capitalised words joined by single spaces. */
  lemma HumanizeJoinsWords(name: string)
    requires NoEmptyPieces(name)
    ensures Humanized(name) == Join(Caps(Segments(name, {'_'})), " ")
  {
    var segs := Segments(name, {'_'});
    if NoSeparator(name, {'_'}) {
      SegmentsNoSeparator(name, {'_'});
    } else {
      assert DropTrailingEmpty(segs) == segs;
    }
    assert JavaSplit(name, {'_'}) == segs;
    RemovedLength(name, '_');
    HumanizePrefix(segs, HumanizeTotal(name), |segs|);
    assert segs[..|segs|] == segs;
  }

  /** The non-empty words, in order. */
  function NonEmpty(words: seq<string>): (r: seq<string>)
    ensures |r| <= |words|
    ensures forall j :: 0 <= j < |r| ==> r[j] != [] && r[j] in words
    ensures (forall j :: 0 <= j < |words| ==> words[j] != []) ==> r == words
  {
    if words == [] then []
    else
      var init := NonEmpty(words[..|words| - 1]);
      var last := words[|words| - 1];
      assert words == words[..|words| - 1] + [last];
      init + (if last == [] then [] else [last])
  }

  /** The title the function evidently means: the capitalised non-empty words joined by single spaces. */
  function HumanizedWords(name: string): string
  {
    Join(Caps(NonEmpty(JavaSplit(name, {'_'}))), " ")
  }

  /** `humanizeName` with the separator written before every word but the first. */
  method HumanizeNameCorrected(itemName: string) returns (result: string)
    ensures result == HumanizedWords(itemName)
  {
    var words := JavaSplit(itemName, {'_'});
    result := "";
    var i := 0;
    assert words[..0] == [];
    while i < |words|
      invariant 0 <= i <= |words|
      invariant result == Join(Caps(NonEmpty(words[..i])), " ")
      invariant result == [] <==> NonEmpty(words[..i]) == []
    {
      var word := words[i];
      ghost var before, after := NonEmpty(words[..i]), NonEmpty(words[..i + 1]);
      NonEmptyPrefixStep(words, i);
      if |word| > 0 {
        assert after == before + [word];
        HumanizeCorrectedStep(before, word);
        if |result| > 0 {
          result := result + " ";
        }
        result := result + CapWord(word);
        assert result == Join(Caps(after), " ");
      } else {
        assert after == before;
      }
      i := i + 1;
    }
    assert words[..|words|] == words;
  }

  /** The non-empty words of one more piece of a list. */
  lemma NonEmptyPrefixStep(words: seq<string>, i: int)
    requires 0 <= i < |words|
    ensures NonEmpty(words[..i + 1]) == NonEmpty(words[..i]) + (if words[i] == [] then [] else [words[i]])
  {
    assert words[..i + 1] == words[..i] + [words[i]];
    NonEmptyAppend(words[..i], words[i]);
  }

  /** One more non-empty word: a space (unless it is the first word), then the word capitalised. */
  lemma HumanizeCorrectedStep(before: seq<string>, word: string)
    requires word != []
    requires Join(Caps(before), " ") == [] <==> before == []
    ensures var joined := Join(Caps(before), " ");
            Join(Caps(before + [word]), " ") == (if joined == [] then [] else joined + " ") + CapWord(word)
    ensures Join(Caps(before + [word]), " ") != []
  {
    CapsAppend(before, word);
    JoinAppend(Caps(before), CapWord(word), " ");
  }

  /** Without empty pieces the code as written already gives the intended title. */
  lemma HumanizeAgreesWithoutEmptyPieces(name: string)
    requires NoEmptyPieces(name)
    ensures Humanized(name) == HumanizedWords(name)
  {
    var segs := Segments(name, {'_'});
    HumanizeJoinsWords(name);
    if NoSeparator(name, {'_'}) {
      SegmentsNoSeparator(name, {'_'});
    } else {
      assert DropTrailingEmpty(segs) == segs;
    }
  }

  lemma SplitDoubleUnderscore()
    ensures JavaSplit("a__b", {'_'}) == ["a", "", "b"]
    ensures ReplaceAll("a__b", "_", "") == "ab"
  {
    SegmentsDoubleUnderscore();
    assert !NoSeparator("a__b", {'_'}) by {
      assert "a__b"[1] == '_';
    }
    var segs: seq<string> := ["a", "", "b"];
    assert segs[|segs| - 1] != [];
    assert DropTrailingEmpty(segs) == segs;
    ReplaceDoubleUnderscore();
  }

  lemma SegmentsDoubleUnderscore()
    ensures Segments("a__b", {'_'}) == ["a", "", "b"]
  {
    var s := "a__b";
    assert s == "a" + ['_'] + ("" + ['_'] + "b");
    SegmentsAtSeparator("a", '_', "_b", {'_'});
    SegmentsAtSeparator("", '_', "b", {'_'});
    SegmentsNoSeparator("b", {'_'});
  }

  lemma ReplaceDoubleUnderscore()
    ensures ReplaceAll("a__b", "_", "") == "ab"
  {
    var u: string := ['_'];
    assert u == "_";
    assert ReplaceAll(['b'], u, "") == "b" by {
      assert ['b'][..1] == ['b'] && ['b'][0] != u[0];
      assert ReplaceAll(['b'][1..], u, "") == [];
    }
    assert ReplaceAll(['_', 'b'], u, "") == "b" by {
      assert ['_', 'b'][..1] == u && ['_', 'b'][1..] == ['b'];
    }
    assert ReplaceAll(['_', '_', 'b'], u, "") == "b" by {
      assert ['_', '_', 'b'][..1] == u && ['_', '_', 'b'][1..] == ['_', 'b'];
    }
    assert ReplaceAll(['a', '_', '_', 'b'], u, "") == "ab" by {
      assert ['a', '_', '_', 'b'][..1] == ['a'] && ['a'][0] != u[0];
      assert ['a', '_', '_', 'b'][1..] == ['_', '_', 'b'];
    }
    assert "a__b" == ['a', '_', '_', 'b'];
  }

  lemma SplitLeadingUnderscore()
    ensures JavaSplit("_a", {'_'}) == ["", "a"]
    ensures ReplaceAll("_a", "_", "") == "a"
  {
    var t := "_a";
    assert t == "" + ['_'] + "a";
    SegmentsAtSeparator("", '_', "a", {'_'});
    SegmentsNoSeparator("a", {'_'});
    assert t[0] == '_';
  }

  lemma CapLetters()
    ensures CapWord("a") == "A" && CapWord("b") == "B"
    ensures Caps(["a"]) == ["A"] && Caps(["a", "b"]) == ["A", "B"]
  {
    assert Lower([]) == [];
    assert ToUpperChar('a') == 'A' && ToUpperChar('b') == 'B';
  }

  /** The fold over one more word is one more step. */
  lemma HumanizeFoldAppend(words: seq<string>, w: string, total: int)
    ensures HumanizeFold(words + [w], total) == HumanizeStep(HumanizeFold(words, total), w, total)
  {
    assert (words + [w])[..|words|] == words;
  }

  /** A doubled '_' leaves a trailing space in the title as written; the corrected title has none. */
  lemma HumanizeDoubledUnderscore()
    ensures Humanized("a__b") == "A B "
    ensures HumanizedWords("a__b") == "A B"
  {
    SplitDoubleUnderscore();
    assert HumanizeTotal("a__b") == 4;
    FoldDoubled();
    NonEmptyDoubled();
    CapLetters();
    assert Join(["A", "B"], " ") == "A B" by {
      assert ["A", "B"][1..] == ["B"];
    }
  }

  lemma FoldDoubled()
    ensures HumanizeFold(["a", "", "b"], 4) == "A B "
  {
    HumanizeFoldAppend([], "a", 4);
    assert [] + ["a"] == ["a"];
    FoldDoubledFirst();
    HumanizeFoldAppend(["a"], "", 4);
    assert ["a"] + [""] == ["a", ""];
    HumanizeFoldAppend(["a", ""], "b", 4);
    assert ["a", ""] + ["b"] == ["a", "", "b"];
    FoldDoubledLast();
  }

  lemma FoldDoubledFirst()
    ensures HumanizeStep([], "a", 4) == "A "
  {
    CapLetters();
    assert [] + "A" == "A";
  }

  lemma FoldDoubledLast()
    ensures HumanizeStep("A ", "b", 4) == "A B "
  {
    CapLetters();
    assert "A " + "B" == "A B";
  }

  lemma NonEmptyDoubled()
    ensures NonEmpty(["a", "", "b"]) == ["a", "b"]
  {
    var ws: seq<string> := ["a", "", "b"];
    var a: seq<string> := ["a"];
    assert a[..0] == [] && NonEmpty(a) == ["a"];
    assert ws[..2][..1] == a;
    assert NonEmpty(ws[..2]) == ["a"];
    assert NonEmpty(ws) == ["a", "b"];
  }

  /** A leading '_' leaves a trailing space in the title as written; the corrected title has none. */
  lemma HumanizeLeadingUnderscore()
    ensures Humanized("_a") == "A "
    ensures HumanizedWords("_a") == "A"
  {
    var ws: seq<string> := ["", "a"];
    SplitLeadingUnderscore();
    CapLetters();
    assert HumanizeTotal("_a") == 2;
    assert ws[..1] == [""] && [""][..0] == [];
    assert HumanizeFold([""], 2) == "";
    assert HumanizeFold(ws, 2) == "A ";
    NonEmptyAppend([], "");
    NonEmptyAppend([""], "a");
    assert NonEmpty(ws) == ["a"];
  }

  /** Every character of every piece of `split` is a character of the text. */
  lemma SplitPiecesChars(name: string, c: char)
    ensures forall j, k :: 0 <= j < |JavaSplit(name, {c})| && 0 <= k < |JavaSplit(name, {c})[j]| ==>
              JavaSplit(name, {c})[j][k] in name
  {
    SegmentsChars(name, {c});
    if !NoSeparator(name, {c}) {
      var segs := Segments(name, {c});
      assert JavaSplit(name, {c}) == segs[..|JavaSplit(name, {c})|];
    }
  }

  /** A word that neither starts nor ends with a space keeps that after capitalisation. */
  lemma CapWordEnds(w: string)
    requires w != [] && w[0] != ' ' && w[|w| - 1] != ' '
    ensures CapWord(w)[0] != ' ' && CapWord(w)[|w| - 1] != ' '
  {
    var r := CapWord(w);
    assert r[0] == ToUpperChar(w[0]);
    if |w| > 1 {
      var tail := w[1..];
      assert r[|w| - 1] == Lower(tail)[|tail| - 1];
      assert Lower(tail)[|tail| - 1] == ToLowerChar(tail[|tail| - 1]);
      assert tail[|tail| - 1] == w[|w| - 1];
    }
  }

  /** A piece of a name without spaces neither starts nor ends with a space. */
  lemma PieceEnds(name: string, w: string)
    requires ' ' !in name && w in JavaSplit(name, {'_'}) && w != []
    ensures w[0] != ' ' && w[|w| - 1] != ' '
  {
    var split := JavaSplit(name, {'_'});
    var j :| 0 <= j < |split| && split[j] == w;
    SplitPiecesChars(name, '_');
    assert split[j][0] in name;
    assert split[j][|split[j]| - 1] in name;
  }

  /** The corrected title starts and ends with a letter of a word, never a space, when the name has no spaces. */
  lemma HumanizedWordsTrimmed(name: string)
    requires ' ' !in name
    ensures var r := HumanizedWords(name); r != [] ==> r[0] != ' ' && r[|r| - 1] != ' '
  {
    var ws := NonEmpty(JavaSplit(name, {'_'}));
    if ws != [] {
      var first, last := ws[0], ws[|ws| - 1];
      PieceEnds(name, first);
      PieceEnds(name, last);
      CapWordEnds(first);
      CapWordEnds(last);
      var caps := Caps(ws);
      assert caps[0] == CapWord(first) && caps[|caps| - 1] == CapWord(last);
      JoinFirstLast(caps, " ");
    }
  }

  /** The first and last characters of a join of non-empty words are those of its first and last word. */
  lemma JoinFirstLast(words: seq<string>, sep: string)
    requires words != [] && words[0] != [] && words[|words| - 1] != []
    ensures var r := Join(words, sep); r != [] && r[0] == words[0][0] && r[|r| - 1] == words[|words| - 1][|words[|words| - 1]| - 1]
  {
    var last := words[|words| - 1];
    assert words == words[..|words| - 1] + [last];
    JoinAppend(words[..|words| - 1], last, sep);
  }

  /** The characters `\s` matches: space, tab, line feed, vertical tab, form feed and carriage return. */
  predicate IsSpace(c: char)
  {
    c == ' ' || '\t' <= c <= '\r'
  }

  /** The characters `[a-z0-9_]`. */
  predicate IsAllowed(c: char)
  {
    'a' <= c <= 'z' || '0' <= c <= '9' || c == '_'
  }

  /** The text after its leading whitespace. */
  function DropSpaces(s: string): (r: string)
    ensures |r| <= |s| && r == s[|s| - |r|..]
    ensures r != [] ==> !IsSpace(r[0])
    ensures forall i :: 0 <= i < |s| - |r| ==> IsSpace(s[i])
  {
    if s != [] && IsSpace(s[0]) then DropSpaces(s[1..]) else s
  }

  /** `replaceAll("\\s+", "_")`: every maximal run of whitespace becomes a single '_'. */
  function CollapseSpaces(s: string): (r: string)
    ensures |r| <= |s|
    ensures forall i :: 0 <= i < |r| ==> !IsSpace(r[i])
    decreases |s|
  {
    if s == [] then []
    else if IsSpace(s[0]) then "_" + CollapseSpaces(DropSpaces(s[1..]))
    else [s[0]] + CollapseSpaces(s[1..])
  }

  /** Text without whitespace is left as it is. */
  lemma {:induction false} CollapseKeepsSpaceless(s: string)
    requires forall i :: 0 <= i < |s| ==> !IsSpace(s[i])
    ensures CollapseSpaces(s) == s
    decreases |s|
  {
    if s != [] {
      assert !IsSpace(s[0]);
      CollapseKeepsSpaceless(s[1..]);
      assert [s[0]] + s[1..] == s;
    }
  }

  /** `replaceAll("[^a-z0-9_]", "")`: the allowed characters, in order; each occurs as often as before. */
  function KeepAllowed(s: string): (r: string)
    ensures |r| <= |s|
    ensures forall i :: 0 <= i < |r| ==> IsAllowed(r[i])
    ensures forall c :: IsAllowed(c) ==> multiset(r)[c] == multiset(s)[c]
  {
    if s == [] then []
    else
      assert s == [s[0]] + s[1..];
      (if IsAllowed(s[0]) then [s[0]] else []) + KeepAllowed(s[1..])
  }

  /** Text of allowed characters only is left as it is. */
  lemma {:induction false} KeepAllAllowed(s: string)
    requires forall i :: 0 <= i < |s| ==> IsAllowed(s[i])
    ensures KeepAllowed(s) == s
    decreases |s|
  {
    if s != [] {
      assert IsAllowed(s[0]);
      KeepAllAllowed(s[1..]);
      assert [s[0]] + s[1..] == s;
    }
  }

  /** `normalizeName`: lowercased, whitespace runs turned into '_', everything outside [a-z0-9_] dropped. */
  function NormalizeName(name: string): (r: string)
    ensures |r| <= |name|
    ensures forall i :: 0 <= i < |r| ==> IsAllowed(r[i])
  {
    KeepAllowed(CollapseSpaces(Lower(name)))
  }

  /** Normalising a normalised name changes nothing. */
  lemma NormalizeIdempotent(name: string)
    ensures NormalizeName(NormalizeName(name)) == NormalizeName(name)
  {
    var n := NormalizeName(name);
    LowerNoCapitals(n);
    CollapseKeepsSpaceless(n);
    KeepAllAllowed(n);
  }

  /** Names already in [a-z0-9_] are normal; letters keep their count in lower case. */
  lemma NormalizeKeepsNormalNames(name: string)
    requires forall i :: 0 <= i < |name| ==> IsAllowed(name[i])
    ensures NormalizeName(name) == name
  {
    LowerNoCapitals(name);
    CollapseKeepsSpaceless(name);
    KeepAllAllowed(name);
  }

  /** `isValidTier`: the lowercased name is one of the three tiers. */
  predicate IsValidTier(tier: string)
  {
    IsTierName(Lower(tier))
  }

  /** The valid tier names are exactly the names of the tiers, in any case. */
  lemma ValidTierNames(tier: string)
    ensures IsValidTier(tier) <==> exists t: Tier :: Lower(tier) == Lower(t.DisplayName())
    ensures forall t: Tier :: IsValidTier(t.DisplayName()) && IsValidTier(t.Name())
  {
    assert Lower("Iron") == "iron" == Lower("IRON");
    assert Lower("Netherite") == "netherite" == Lower("NETHERITE");
    assert Lower("Enderite") == "enderite" == Lower("ENDERITE");
    if IsValidTier(tier) {
      if Lower(tier) == "iron" {
        assert Lower(tier) == Lower(Iron.DisplayName());
      } else if Lower(tier) == "netherite" {
        assert Lower(tier) == Lower(Netherite.DisplayName());
      } else {
        assert Lower(tier) == Lower(Enderite.DisplayName());
      }
    }
  }
}
