/** The split of a note into front matter and body. */
module Frontmatter {
  import opened Wrappers
  import opened Text
  import opened Utf8

  const LF: Byte := 10
  const PLUS: Byte := 0x2B
  const DASH: Byte := 0x2D
  const FENCE: Bytes := [PLUS, PLUS, PLUS]
  const DASHES: Bytes := [DASH, DASH, DASH]
  const CLOSING: Bytes := [LF, PLUS, PLUS, PLUS]

  /** `---` notes go to a YAML library; `+++` notes are split here, and their front matter parsed as TOML. */
  datatype Split = Yaml(raw: Bytes) | Toml(frontmatter: Bytes, body: Bytes) | Bare(body: Bytes)

  function StripPrefix(s: Bytes, p: Bytes): Bytes {
    if StartsWith(s, p) then s[|p|..] else s
  }

  /** `parse_frontmatter`, up to the parsing of the pieces. */
  function Parse(raw: Bytes): Split {
    if StartsWith(raw, DASHES) then Yaml(raw)
    else if StartsWith(raw, FENCE) then
      var afterOpen := StripPrefix(StripPrefix(raw, FENCE), [LF]);
      match Find(afterOpen, CLOSING, 0)
      case Some(close) => Toml(afterOpen[..close], StripPrefix(afterOpen[close + 4..], [LF]))
      case None => Bare(raw)
    else Bare(raw)
  }

  lemma StripPrefixIs(p: Bytes, rest: Bytes)
    ensures StripPrefix(p + rest, p) == rest
  {
    assert (p + rest)[0..|p|] == p && (p + rest)[|p|..] == rest;
  }

  lemma StripPrefixLoses(s: Bytes, b: Byte)
    ensures StripPrefix(s, [b]) == s || s == [b] + StripPrefix(s, [b])
  {
    if StartsWith(s, [b]) {
      assert s[0..1] == [b] && s == s[0..1] + s[1..];
    }
  }

  lemma ClosingAt(s: Bytes, i: nat)
    ensures HasAt(s, CLOSING, i) <==> i + 3 < |s| && s[i] == LF && s[i + 1] == PLUS && s[i + 2] == PLUS && s[i + 3] == PLUS
  {
    if i + 4 <= |s| {
      assert s[i..i + 4] == [s[i], s[i + 1], s[i + 2], s[i + 3]];
    }
  }

  /** A closing fence after text that holds none is found right there: an earlier occurrence would lie
      inside the text, or need a line feed where the fence has a plus. */
  lemma ClosingFound(fm: Bytes, rest: Bytes)
    requires !Occurs(fm, CLOSING)
    ensures Find(fm + CLOSING + rest, CLOSING, 0) == Some(|fm|)
  {
    var s := fm + CLOSING + rest;
    assert s[|fm|] == LF;
    ClosingAt(s, |fm|);
    forall i | 0 <= i < |fm| ensures !HasAt(s, CLOSING, i) {
      ClosingAt(s, i);
      ClosingAt(fm, i);
      assert !HasAt(fm, CLOSING, i);
    }
  }

  /** Front matter written between `+++` lines is split off exactly, and the body is what follows. */
  lemma SplitRoundTrip(fm: Bytes, body: Bytes)
    requires !Occurs(fm, [10, 0x2B, 0x2B, 0x2B])
    ensures Parse([0x2B, 0x2B, 0x2B, 10] + fm + [10, 0x2B, 0x2B, 0x2B, 10] + body) == Toml(fm, body)
  {
    assert [0x2B, 0x2B, 0x2B, 10] + fm + [10, 0x2B, 0x2B, 0x2B, 10] + body == FENCE + [LF] + fm + CLOSING + [LF] + body;
    var raw := FENCE + [LF] + fm + CLOSING + [LF] + body;
    var inner := fm + CLOSING + ([LF] + body);
    assert raw == FENCE + ([LF] + inner);
    assert raw[0] == PLUS && !StartsWith(raw, DASHES) by {
      assert raw[0..3][0] == PLUS;
    }
    StripPrefixIs(FENCE, [LF] + inner);
    StripPrefixIs([LF], inner);
    assert StartsWith(raw, FENCE) by {
      assert raw[0..3] == FENCE;
    }
    ClosingFound(fm, [LF] + body);
    assert inner[..|fm|] == fm && inner[|fm| + 4..] == [LF] + body;
    StripPrefixIs([LF], body);
  }

  lemma CutAt(s: Bytes, close: nat)
    requires HasAt(s, CLOSING, close)
    ensures close + 4 <= |s| && s == s[..close] + CLOSING + s[close + 4..]
  {
    assert s == s[..close] + s[close..close + 4] + s[close + 4..];
  }

  /** The text in front of the first closing fence holds none. */
  lemma CutAtClosing(s: Bytes)
    requires Find(s, CLOSING, 0).Some?
    ensures var close := Find(s, CLOSING, 0).value;
            close + 4 <= |s| && s == s[..close] + CLOSING + s[close + 4..] && !Occurs(s[..close], CLOSING)
  {
    var close := Find(s, CLOSING, 0).value;
    CutAt(s, close);
    hide HasAt;
    forall i: nat ensures !HasAt(s[..close], CLOSING, i) {
      ClosingAt(s[..close], i);
      ClosingAt(s, i);
    }
  }

  /** Splitting loses nothing: the pieces and the delimiters removed concatenate back to the input, and
      the front matter holds no closing fence. */
  lemma SplitLossless(raw: Bytes) returns (opening: Bytes, ending: Bytes)
    requires Parse(raw).Toml?
    ensures !Occurs(Parse(raw).frontmatter, CLOSING)
    ensures (opening == [] || opening == [LF]) && (ending == [] || ending == [LF])
    ensures raw == FENCE + opening + Parse(raw).frontmatter + CLOSING + ending + Parse(raw).body
  {
    hide *;
    var fm, body, tail, afterOpen, rest := TomlPieces(raw);
    StripPrefixLoses(tail, LF);
    StripPrefixLoses(rest, LF);
    opening := if afterOpen == tail then [] else [LF];
    ending := if body == rest then [] else [LF];
    Reassemble(opening, fm, ending, body);
  }

  /** The steps that took a TOML note apart. */
  lemma TomlPieces(raw: Bytes) returns (fm: Bytes, body: Bytes, tail: Bytes, afterOpen: Bytes, rest: Bytes)
    requires Parse(raw).Toml?
    ensures Parse(raw) == Toml(fm, body) && !Occurs(fm, CLOSING)
    ensures raw == FENCE + tail && afterOpen == StripPrefix(tail, [LF])
    ensures afterOpen == fm + CLOSING + rest && body == StripPrefix(rest, [LF])
  {
    hide Occurs, CLOSING;
    fm, body, tail := Parse(raw).frontmatter, Parse(raw).body, raw[3..];
    afterOpen := StripPrefix(tail, [LF]);
    CutAtClosing(afterOpen);
    rest := afterOpen[|fm| + 4..];
    assert raw[0..3] == FENCE && raw == raw[0..3] + raw[3..];
  }

  lemma Reassemble(opening: Bytes, fm: Bytes, ending: Bytes, body: Bytes)
    ensures FENCE + (opening + (fm + CLOSING + (ending + body))) == FENCE + opening + fm + CLOSING + ending + body
  {}

  /** Which notes have TOML front matter: those that start with `+++` and hold a closing fence after the
      opening one and its line end. */
  lemma TomlIff(raw: Bytes)
    ensures Parse(raw).Toml? <==>
            StartsWith(raw, FENCE) && Occurs(StripPrefix(raw[3..], [LF]), CLOSING)
  {
    if StartsWith(raw, FENCE) {
      assert raw[0..3][0] == PLUS && DASHES[0] == DASH;
    }
  }

  /** What a note is taken for: notes that start with `---` go to the YAML library whole, notes with TOML front
      matter are split, and every other note is all body. */
  lemma KindIff(raw: Bytes)
    ensures Parse(raw) == Yaml(raw) <==> [0x2D, 0x2D, 0x2D] <= raw
    ensures Parse(raw) == Bare(raw) <==>
            !([0x2D, 0x2D, 0x2D] <= raw) && !([0x2B, 0x2B, 0x2B] <= raw && Occurs(StripPrefix(raw[3..], [LF]), CLOSING))
    ensures Parse(raw).Yaml? ==> Parse(raw).raw == raw
    ensures Parse(raw).Bare? ==> Parse(raw).body == raw
  {
    TomlIff(raw);
    assert StartsWith(raw, DASHES) <==> [0x2D, 0x2D, 0x2D] <= raw by {
      assert |raw| >= 3 ==> raw[0..3] == [raw[0], raw[1], raw[2]];
    }
    assert StartsWith(raw, FENCE) <==> [0x2B, 0x2B, 0x2B] <= raw by {
      assert |raw| >= 3 ==> raw[0..3] == [raw[0], raw[1], raw[2]];
    }
  }

  /** Empty front matter written as two adjacent fence lines is not recognised: the line end the opening
      fence eats is the one the closing fence needs. The note counts as bare unless its body closes it. */
  lemma AdjacentFencesIff(body: Bytes)
    ensures var raw := FENCE + [LF] + FENCE + [LF] + body;
            Parse(raw) == Bare(raw) <==> !Occurs(FENCE + [LF] + body, CLOSING)
  {
    var raw := FENCE + [LF] + FENCE + [LF] + body;
    var inner := FENCE + [LF] + body;
    assert raw == FENCE + ([LF] + inner) && raw[3..] == [LF] + inner;
    StripPrefixIs([LF], inner);
    assert raw[0..3] == FENCE && raw[0..3][0] == PLUS;
    TomlIff(raw);
  }
}
