/** Tag-name normalisation of the Post model: the two setters' input
    channels (`tag_names=` with a comma-separated string, `tags_attributes=`
    with nested `{ "name" => ... }` parameters) and the `tag_names` reader. */
module TagNames {
  import opened Text

  /** A canonical tag name: non-empty, no surrounding whitespace, lower case. */
  predicate IsCanonical(s: string) {
    s != [] && IsStripped(s) && forall i :: 0 <= i < |s| ==> !IsUpper(s[i])
  }

  lemma DowncaseOfLower(s: string)
    ensures (forall i :: 0 <= i < |s| ==> !IsUpper(s[i])) ==> Downcase(s) == s
  {
  }

  /** `name.strip.downcase`: a canonical name, or "" exactly when the input
      was blank; a name that is already canonical is left alone. */
  function Canonicalize(s: string): (r: string)
    ensures r == "" <==> IsBlank(s)
    ensures r != "" ==> IsCanonical(r)
    ensures IsCanonical(s) ==> r == s
  {
    StripSpec(s);
    DowncaseKeepsSpaces(Strip(s));
    DowncaseOfLower(s);
    Downcase(Strip(s))
  }

  /** `strip.downcase` keeps exactly the letters between the surrounding
      blanks, each lower-cased. */
  lemma CanonicalizeIsTrimmedDowncase(s: string)
    ensures exists i, j ::
              0 <= i <= j <= |s| && IsBlank(s[..i]) && IsBlank(s[j..]) && Canonicalize(s) == Downcase(s[i..j])
  {
    StripSpec(s);
  }

  /** Blanks around a name and the case of its letters make no difference:
      " Ruby " and "ruby" give the same tag. */
  lemma CanonicalizeFoldsCaseAndSpace(s: string, w1: string, w2: string)
    requires IsBlank(w1) && IsBlank(w2)
    ensures Canonicalize(w1 + s + w2) == Canonicalize(s)
    ensures Canonicalize(s) == Canonicalize(Downcase(s))
  {
    StripIgnoresPadding(w1, s, w2);
    StripDowncase(s);
    StripDowncase(Strip(s));
  }

  predicate AllCanonical(names: seq<string>) {
    forall k :: 0 <= k < |names| ==> IsCanonical(names[k])
  }

  /** `strip.downcase` of every raw piece, blank results rejected, in input order. */
  function CanonicalNames(raw: seq<string>): (r: seq<string>)
    ensures |r| <= |raw|
    decreases |raw|
  {
    if |raw| == 0 then []
    else
      var n := Canonicalize(raw[|raw| - 1]);
      CanonicalNames(raw[..|raw| - 1]) + (if IsBlank(n) then [] else [n])
  }

  /** Every name that survives is canonical. */
  lemma {:induction false} CanonicalNamesAreCanonical(raw: seq<string>)
    ensures AllCanonical(CanonicalNames(raw))
    decreases |raw|
  {
    if |raw| > 0 {
      var init := raw[..|raw| - 1];
      var n := Canonicalize(raw[|raw| - 1]);
      CanonicalNamesAreCanonical(init);
      var r0 := CanonicalNames(init);
      var r := CanonicalNames(raw);
      assert r == r0 + (if IsBlank(n) then [] else [n]);
      forall k | 0 <= k < |r| ensures IsCanonical(r[k]) {
        if k < |r0| {
          assert r[k] == r0[k];
        }
      }
    }
  }

  /** The names `tag_names=` extracts from its string argument. */
  function NamesFromList(value: string): seq<string> {
    CanonicalNames(Split(value, ','))
  }

  /** The new buffer after `tag_names = value`: the old buffer followed by the
      new names, duplicates removed in order of first appearance. */
  function AssignTagNames(buffer: seq<string>, value: string): seq<string> {
    Dedup(buffer + NamesFromList(value))
  }

  /** After `tag_names=` the buffer holds no name twice, holds exactly the
      old names and the new ones, and starts with the old buffer's distinct
      names in their order. */
  lemma AssignTagNamesSpec(buffer: seq<string>, value: string)
    ensures Distinct(AssignTagNames(buffer, value))
    ensures forall x :: x in AssignTagNames(buffer, value) <==> x in buffer || x in NamesFromList(value)
    ensures Dedup(buffer) <= AssignTagNames(buffer, value)
  {
    DedupPrefix(buffer, NamesFromList(value));
  }

  /** `tag_names=` only ever adds canonical names to the buffer. */
  lemma AssignTagNamesCanonical(buffer: seq<string>, value: string)
    requires AllCanonical(buffer)
    ensures AllCanonical(AssignTagNames(buffer, value))
  {
    var r := AssignTagNames(buffer, value);
    var added := NamesFromList(value);
    AssignTagNamesSpec(buffer, value);
    CanonicalNamesAreCanonical(Split(value, ','));
    forall k | 0 <= k < |r| ensures IsCanonical(r[k]) {
      assert r[k] in r;
      if r[k] in buffer {
        var j :| 0 <= j < |buffer| && buffer[j] == r[k];
      } else {
        var j :| 0 <= j < |added| && added[j] == r[k];
      }
    }
  }

  /** One entry of the `tags_attributes` hash, e.g. `{ "name" => "ruby" }`. */
  type TagParams = map<string, string>

  /** `tag_params["name"].to_s`: a missing name reads as "". */
  function NameParam(params: TagParams): string {
    if "name" in params then params["name"] else ""
  }

  function NameParams(entries: seq<TagParams>): (r: seq<string>)
    ensures |r| == |entries|
    ensures forall k :: 0 <= k < |entries| ==> r[k] == NameParam(entries[k])
  {
    seq(|entries|, k requires 0 <= k < |entries| => NameParam(entries[k]))
  }

  /** The names `tags_attributes=` appends for the hash's values (in the
      hash's order); blank names are skipped and duplicates are kept. */
  function AttributeNames(entries: seq<TagParams>): seq<string> {
    CanonicalNames(NameParams(entries))
  }

  /** Taking one more entry appends at most that entry's name. */
  lemma AttributeNamesSnoc(entries: seq<TagParams>, e: TagParams)
    ensures AttributeNames(entries + [e]) ==
      AttributeNames(entries) + (if IsBlank(Canonicalize(NameParam(e))) then [] else [Canonicalize(NameParam(e))])
  {
    assert NameParams(entries + [e])[..|entries|] == NameParams(entries);
  }

  /** The names of the first i + 1 entries are those of the first i,
      followed by the (i+1)-th entry's name unless it is blank. */
  lemma AttributeNamesPrefix(entries: seq<TagParams>, i: nat)
    requires i < |entries|
    ensures AttributeNames(entries[..i + 1]) ==
      AttributeNames(entries[..i])
        + (if IsBlank(Canonicalize(NameParam(entries[i]))) then [] else [Canonicalize(NameParam(entries[i]))])
  {
    assert entries[..i + 1] == entries[..i] + [entries[i]];
    AttributeNamesSnoc(entries[..i], entries[i]);
  }

  /** The buffer after i + 1 entries is the buffer after i entries, with the
      (i+1)-th entry's name appended unless it is blank. */
  lemma AttributeNamesStep(buffer: seq<string>, entries: seq<TagParams>, i: nat)
    requires i < |entries|
    ensures buffer + AttributeNames(entries[..i + 1]) ==
      (buffer + AttributeNames(entries[..i]))
        + (if IsBlank(Canonicalize(NameParam(entries[i]))) then [] else [Canonicalize(NameParam(entries[i]))])
  {
    AttributeNamesPrefix(entries, i);
  }

  /** `tags_attributes=` only ever appends canonical names to the buffer. */
  lemma AttributeNamesCanonical(buffer: seq<string>, entries: seq<TagParams>)
    requires AllCanonical(buffer)
    ensures AllCanonical(buffer + AttributeNames(entries))
  {
    var added := AttributeNames(entries);
    CanonicalNamesAreCanonical(NameParams(entries));
    forall k | 0 <= k < |buffer + added| ensures IsCanonical((buffer + added)[k]) {
      if k >= |buffer| {
        assert (buffer + added)[k] == added[k - |buffer|];
      }
    }
  }

  lemma CanonicalIsNotBlank(n: string)
    requires IsCanonical(n)
    ensures !IsBlank(n)
  {
    assert !IsSpace(n[0]);
  }

  /** Names that are already canonical pass through unchanged. */
  lemma {:induction false} CanonicalNamesOfCanonical(raw: seq<string>, names: seq<string>)
    requires |raw| == |names|
    requires forall k :: 0 <= k < |names| ==> IsCanonical(names[k])
    requires forall k :: 0 <= k < |raw| ==> Canonicalize(raw[k]) == names[k]
    ensures CanonicalNames(raw) == names
    decreases |raw|
  {
    if |raw| > 0 {
      var last := |raw| - 1;
      var init, n := raw[..last], names[last];
      CanonicalIsNotBlank(n);
      CanonicalNamesOfCanonical(init, names[..last]);
      assert CanonicalNames(raw) == CanonicalNames(init) + [n];
      FrontLast(names);
    }
  }

  /** Ruby's `split` drops trailing empty pieces; those would have been
      rejected as blank anyway, so the names are those of every piece. */
  lemma {:induction false} TrailingEmptyPiecesIrrelevant(raw: seq<string>, n: nat)
    requires n <= |raw|
    requires forall k :: n <= k < |raw| ==> raw[k] == ""
    ensures CanonicalNames(raw) == CanonicalNames(raw[..n])
    decreases |raw| - n
  {
    if n < |raw| {
      var init := raw[..|raw| - 1];
      TrailingEmptyPiecesIrrelevant(init, n);
      assert init[..n] == raw[..n];
      assert IsBlank(raw[|raw| - 1]);
    } else {
      assert raw[..n] == raw;
    }
  }

  lemma NamesFromListIgnoresSplitQuirk(value: string)
    ensures NamesFromList(value) == CanonicalNames(SplitAll(value, ','))
  {
    var all := SplitAll(value, ',');
    TrailingEmptyPiecesIrrelevant(all, |Split(value, ',')|);
  }

  /** The separator-joined form with ", ": every name but the first is
      preceded by a space. */
  function Spaced(names: seq<string>): (r: seq<string>)
    requires |names| >= 1
    ensures |r| == |names| && r[0] == names[0]
    ensures forall k :: 1 <= k < |names| ==> r[k] == " " + names[k]
  {
    [names[0]] + seq(|names| - 1, k requires 0 <= k < |names| - 1 => " " + names[k + 1])
  }

  lemma {:induction false} JoinSpaced(names: seq<string>)
    requires |names| >= 1
    ensures Join(names, ", ") == Join(Spaced(names), ",")
    decreases |names|
  {
    if |names| > 1 {
      var rest := names[1..];
      JoinSpaced(rest);
      var sr := Spaced(rest);
      var sn := Spaced(names);
      assert sn[1..][0] == " " + sr[0];
      assert sn[1..][1..] == sr[1..];
      JoinConsPrefix(" ", sr, ",");
      assert [sn[1..][0]] + sn[1..][1..] == sn[1..];
      assert Join(names, ", ") == names[0] + ", " + Join(rest, ", ");
    }
  }

  /** Prefixing the first element of a list prefixes its join. */
  lemma JoinConsPrefix(p: string, xs: seq<string>, sep: string)
    requires |xs| >= 1
    ensures Join([p + xs[0]] + xs[1..], sep) == p + Join(xs, sep)
  {
    var ys := [p + xs[0]] + xs[1..];
    assert ys[1..] == xs[1..];
  }

  /** Splitting the ", "-joined names on "," gives the spaced pieces back. */
  lemma SplitJoined(names: seq<string>)
    requires |names| >= 1
    requires forall k :: 0 <= k < |names| ==> names[k] != "" && ',' !in names[k]
    ensures Split(Join(names, ", "), ',') == Spaced(names)
  {
    var sp := Spaced(names);
    JoinSpaced(names);
    forall k | 0 <= k < |sp| ensures ',' !in sp[k] {
      if k > 0 { assert sp[k] == [' '] + names[k]; }
    }
    SplitAllJoin(sp, ',');
    assert sp[|sp| - 1] != "";
  }

  /** Each spaced piece canonicalizes to its name. */
  lemma CanonicalizeSpaced(names: seq<string>)
    requires |names| >= 1
    requires forall k :: 0 <= k < |names| ==> IsCanonical(names[k])
    ensures forall k :: 0 <= k < |names| ==> Canonicalize(Spaced(names)[k]) == names[k]
  {
    var sp := Spaced(names);
    forall k | 0 <= k < |names| ensures Canonicalize(sp[k]) == names[k] {
      if k > 0 {
        StripSkipsLeadingSpace(' ', names[k]);
        StripSpec(names[k]);
        DowncaseOfLower(names[k]);
        assert sp[k] == [' '] + names[k];
      }
    }
  }

  /** Splitting the printed list on commas and canonicalizing each piece
      gives back the names. */
  lemma NamesFromJoined(names: seq<string>)
    requires forall k :: 0 <= k < |names| ==> IsCanonical(names[k]) && ',' !in names[k]
    ensures NamesFromList(Join(names, ", ")) == names
  {
    if |names| == 0 {
      assert Split(Join(names, ", "), ',') == [];
    } else {
      SplitJoined(names);
      CanonicalizeSpaced(names);
      CanonicalNamesOfCanonical(Spaced(names), names);
    }
  }

  /** What `tag_names` prints, fed back to `tag_names=` on a fresh post,
      gives back the same names: the reader and the setter are inverse on
      distinct canonical names that hold no comma. */
  lemma TagNamesRoundTrip(names: seq<string>)
    requires forall k :: 0 <= k < |names| ==> IsCanonical(names[k]) && ',' !in names[k]
    requires Distinct(names)
    ensures AssignTagNames([], Join(names, ", ")) == names
  {
    NamesFromJoined(names);
    AssignTagNamesToEmpty(Join(names, ", "));
    DedupOfDistinct(names);
  }

  /** On an empty buffer `tag_names=` keeps the first occurrence of each name. */
  lemma AssignTagNamesToEmpty(value: string)
    ensures AssignTagNames([], value) == Dedup(NamesFromList(value))
  {
    assert [] + NamesFromList(value) == NamesFromList(value);
  }

  /** The example's string splits on commas into its three raw pieces. */
  lemma ExampleSplit()
    ensures Split("Ruby, Rails, ruby ", ',') == ["Ruby", " Rails", " ruby "]
  {
    var pieces := ["Ruby", " Rails", " ruby "];
    assert Join(pieces, [',']) == "Ruby, Rails, ruby ";
    SplitAllJoin(pieces, ',');
  }

  /** A lower-case name normalises to itself, and its capitalised or
      padded spellings normalise to it. */
  lemma ExampleName(name: string, spelled: string, w1: string, w2: string)
    requires IsCanonical(name) && IsBlank(w1) && IsBlank(w2)
    requires Downcase(spelled) == name
    ensures Canonicalize(w1 + spelled + w2) == name
  {
    CanonicalizeFoldsCaseAndSpace(spelled, w1, w2);
  }

  lemma ExamplePadding()
    ensures "" + "Ruby" + "" == "Ruby"
    ensures " " + "Rails" + "" == " Rails"
    ensures " " + "ruby" + " " == " ruby "
  {
  }

  /** One more raw piece appends its normalised name unless that is blank. */
  lemma CanonicalNamesSnoc(raw: seq<string>, x: string)
    ensures CanonicalNames(raw + [x]) ==
      CanonicalNames(raw) + (if IsBlank(Canonicalize(x)) then [] else [Canonicalize(x)])
  {
    assert (raw + [x])[..|raw|] == raw;
  }

  /** The three raw pieces of the example, normalised one by one. */
  lemma ExamplePieces()
    ensures Canonicalize("Ruby") == "ruby"
    ensures Canonicalize(" Rails") == "rails"
    ensures Canonicalize(" ruby ") == "ruby"
  {
    assert IsCanonical("ruby") && IsCanonical("rails");
    assert Downcase("Ruby") == "ruby";
    assert Downcase("Rails") == "rails";
    assert Downcase("ruby") == "ruby";
    ExampleName("ruby", "Ruby", "", "");
    ExampleName("rails", "Rails", " ", "");
    ExampleName("ruby", "ruby", " ", " ");
    ExamplePadding();
  }

  lemma ExampleFirst()
    ensures CanonicalNames(["Ruby"]) == ["ruby"]
  {
    ExamplePieces();
    CanonicalIsNotBlank("ruby");
    CanonicalNamesSnoc([], "Ruby");
    assert [] + ["Ruby"] == ["Ruby"];
  }

  lemma ExampleFirstTwo()
    ensures CanonicalNames(["Ruby", " Rails"]) == ["ruby", "rails"]
  {
    ExamplePieces();
    ExampleFirst();
    CanonicalIsNotBlank("rails");
    CanonicalNamesSnoc(["Ruby"], " Rails");
    assert ["Ruby"] + [" Rails"] == ["Ruby", " Rails"];
  }

  /** Each raw piece of the example normalises to its lower-case name. */
  lemma ExampleNames()
    ensures CanonicalNames(["Ruby", " Rails", " ruby "]) == ["ruby", "rails", "ruby"]
  {
    ExamplePieces();
    ExampleFirstTwo();
    CanonicalIsNotBlank("ruby");
    CanonicalNamesSnoc(["Ruby", " Rails"], " ruby ");
    assert ["Ruby", " Rails"] + [" ruby "] == ["Ruby", " Rails", " ruby "];
  }

  /** The repeated "ruby" is dropped by `uniq`. */
  lemma ExampleDedup()
    ensures Dedup(["ruby", "rails", "ruby"]) == ["ruby", "rails"]
  {
    assert ["ruby", "rails", "ruby"][..2] == ["ruby", "rails"];
    assert ["ruby", "rails"][..1] == ["ruby"];
    assert ["ruby"][..0] == [];
  }

  /** The setter's documented example: "Ruby, Rails, ruby " on a new post
      buffers "ruby" and "rails", once each, in that order. */
  lemma AssignTagNamesExample()
    ensures AssignTagNames([], "Ruby, Rails, ruby ") == ["ruby", "rails"]
  {
    ExampleSplit();
    ExampleNames();
    ExampleDedup();
    AssignTagNamesToEmpty("Ruby, Rails, ruby ");
  }
}
