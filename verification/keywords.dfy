/** Turning the raw search box text into the keyword list: the text is cut
    at every comma, each piece loses its surrounding white space, and pieces
    left empty are dropped. */
module Keywords {
  import opened Seqs
  import opened Text

  /** What a parsed keyword always is: non-empty, trimmed and comma-free. */
  predicate IsKeyword(k: string)
  {
    |k| > 0 && Trimmed(k) && ',' !in k
  }

  predicate NonEmpty(k: string)
  {
    |k| > 0
  }

  /** Strips every piece and drops the ones that become empty. */
  function StripNonEmpty(pieces: seq<string>): seq<string>
  {
    Filter(Map(pieces, Strip), NonEmpty)
  }

  /** The kept pieces are non-empty and trimmed, never more than the pieces,
      and comma-free when the pieces are. */
  lemma StripNonEmptyValid(pieces: seq<string>)
    ensures var keys := StripNonEmpty(pieces);
            |keys| <= |pieces|
            && (forall k :: k in keys ==> |k| > 0 && Trimmed(k))
            && ((forall p :: p in pieces ==> ',' !in p) ==> forall k :: k in keys ==> ',' !in k)
  {
    var stripped := Map(pieces, Strip);
    forall k | k in stripped
      ensures Trimmed(k) && ((forall p :: p in pieces ==> ',' !in p) ==> ',' !in k)
    {
      var i :| 0 <= i < |stripped| && stripped[i] == k;
      StripChars(pieces[i]);
      assert pieces[i] in pieces;
    }
  }

  function ParseKeywords(raw: string): (keys: seq<string>)
    ensures forall k :: k in keys ==> IsKeyword(k)
  {
    SplitPiecesLackSep(raw, ',');
    StripNonEmptyValid(Split(raw, ','));
    StripNonEmpty(Split(raw, ','))
  }

  lemma StripNonEmptyAppend(a: seq<string>, b: seq<string>)
    ensures StripNonEmpty(a + b) == StripNonEmpty(a) + StripNonEmpty(b)
  {
    MapAppend(a, b, Strip);
    FilterAppend(Map(a, Strip), Map(b, Strip), NonEmpty);
  }

  lemma StripNonEmptyKeeps(keys: seq<string>)
    requires forall k :: k in keys ==> IsKeyword(k)
    ensures StripNonEmpty(keys) == keys
  {
    forall i | 0 <= i < |keys|
      ensures Strip(keys[i]) == keys[i]
    {
      assert keys[i] in keys;
      StripTrimmed(keys[i]);
    }
    assert Map(keys, Strip) == keys;
    FilterAll(keys, NonEmpty);
  }

  /** Parsing a comma-joined list of keywords gives the list back: nothing
      is lost, reordered or altered. */
  lemma ParseJoin(keys: seq<string>)
    requires forall k :: k in keys ==> IsKeyword(k)
    ensures ParseKeywords(Join(keys, ',')) == keys
  {
    if |keys| == 0 {
      assert Split("", ',') == [""];
    } else {
      SplitJoin(keys, ',');
      StripNonEmptyKeeps(keys);
    }
  }

  /** Keywords come out in input order: the text before a comma contributes
      its keywords ahead of the text after it. */
  lemma ParseAround(a: string, b: string)
    ensures ParseKeywords(a + [','] + b) == ParseKeywords(a) + ParseKeywords(b)
  {
    SplitAround(a, b, ',');
    StripNonEmptyAppend(Split(a, ','), Split(b, ','));
  }

  /** A piece that is empty or white space only contributes nothing. */
  lemma ParseBlankPiece(a: string, blank: string)
    requires AllSpace(blank) && ',' !in blank
    ensures ParseKeywords(a + [','] + blank) == ParseKeywords(a)
  {
    ParseAround(a, blank);
    SplitNoSep(blank, ',');
    StripBlank(blank);
    assert Map([blank], Strip) == [""];
    assert StripNonEmpty([blank]) == [];
    assert ParseKeywords(blank) == [];
  }

  /** A single piece (text without a comma) yields its stripped text as the
      one keyword, or nothing when it is blank. With `ParseAround` this fixes
      the parse of every input. */
  lemma ParsePiece(p: string)
    requires ',' !in p
    ensures ParseKeywords(p) == if IsBlank(p) then [] else [Strip(p)]
  {
    SplitNoSep(p, ',');
    assert Map([p], Strip) == [Strip(p)];
    assert Filter([Strip(p)], NonEmpty) == Filter([], NonEmpty) + (if NonEmpty(Strip(p)) then [Strip(p)] else []);
  }
}
