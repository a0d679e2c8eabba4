/** Projecting a batch of chess lines into one maximally shared plan. */
module ChessPlan {
  import opened Options
  import opened CanonicalUtf8
  import opened Octets
  import opened CanonicalPlan
  import opened ChessRules
  import opened ChessBatch
  import opened ChessTerms

  // ----- results that stand for terms -----

  /** What one building step guarantees: it fails exactly when the plan breaks, and
      otherwise its result stands for the term and earlier requests are as they were. */
  ghost predicate Made(contents: seq<Content>, broken: bool, after: seq<Content>, afterBroken: bool, r: Option<nat>, term: Term) {
    && (afterBroken <==> broken || r.None?)
    && (!afterBroken ==> contents <= after && Ordered(after) && Denotes(after, r.value, term))
  }

  ghost predicate AllDenote(contents: seq<Content>, results: seq<Option<nat>>, terms: seq<Term>) {
    && |results| == |terms|
    && forall i | 0 <= i < |results| :: results[i].Some? && Denotes(contents, results[i].value, terms[i])
  }

  /** Results collected for a record. */
  ghost predicate Parts(contents: seq<Content>, broken: bool, results: seq<Option<nat>>, terms: seq<Term>) {
    && |results| == |terms| && (None in results ==> broken) && (!broken ==> AllDenote(contents, results, terms))
  }

  lemma PartsNext(contents: seq<Content>, broken: bool, after: seq<Content>, afterBroken: bool, results: seq<Option<nat>>, terms: seq<Term>, r: Option<nat>, term: Term)
    requires Parts(contents, broken, results, terms) && Made(contents, broken, after, afterBroken, r, term)
    ensures Parts(after, afterBroken, results + [r], terms + [term])
  {
    hide Ordered, Denotes;
    if !afterBroken {
      forall i | 0 <= i < |results|
        ensures Denotes(after, results[i].value, terms[i])
      {
        StillDenotes(contents, after, results[i].value, terms[i]);
      }
    }
  }

  lemma StillDenotes(contents: seq<Content>, after: seq<Content>, i: nat, term: Term)
    requires Denotes(contents, i, term) && Ordered(after) && contents <= after
    ensures Denotes(after, i, term)
  {
    DenotesStays(contents, after, i, term);
  }

  ghost predicate Grown(contents: seq<Content>, broken: bool, after: seq<Content>, afterBroken: bool) {
    (broken ==> afterBroken) && (!afterBroken ==> contents <= after && Ordered(after))
  }

  /** A result that is still good. */
  ghost predicate Held(contents: seq<Content>, broken: bool, r: Option<nat>, term: Term) {
    (r.None? ==> broken) && (!broken ==> Denotes(contents, r.value, term))
  }

  lemma HeldStays(contents: seq<Content>, broken: bool, after: seq<Content>, afterBroken: bool, r: Option<nat>, term: Term)
    requires Held(contents, broken, r, term) && Grown(contents, broken, after, afterBroken)
    ensures Held(after, afterBroken, r, term)
  {
    hide Denotes, Ordered;
    if !afterBroken {
      StillDenotes(contents, after, r.value, term);
    }
  }

  lemma PartsStay(contents: seq<Content>, broken: bool, after: seq<Content>, afterBroken: bool, results: seq<Option<nat>>, terms: seq<Term>)
    requires Parts(contents, broken, results, terms) && Grown(contents, broken, after, afterBroken)
    ensures Parts(after, afterBroken, results, terms)
  {
    hide Denotes, Ordered;
    if !afterBroken {
      forall i | 0 <= i < |results|
        ensures Denotes(after, results[i].value, terms[i])
      {
        StillDenotes(contents, after, results[i].value, terms[i]);
      }
    }
  }

  lemma PartsOf2(contents: seq<Content>, broken: bool, r: Option<nat>, s: Option<nat>, t: Term, u: Term)
    requires Held(contents, broken, r, t) && Held(contents, broken, s, u)
    ensures Parts(contents, broken, [r, s], [t, u])
  {
    hide Denotes;
  }

  /** Results collected since the plan was last known whole or broken. */
  ghost predicate Collected(c0: seq<Content>, b0: bool, contents: seq<Content>, broken: bool, results: seq<Option<nat>>, terms: seq<Term>) {
    && Parts(contents, broken, results, terms) && (broken <==> b0 || None in results)
    && Grown(c0, b0, contents, broken)
  }

  lemma CollectFirst(c0: seq<Content>, b0: bool, contents: seq<Content>, broken: bool, r: Option<nat>, term: Term)
    requires Made(c0, b0, contents, broken, r, term)
    ensures Collected(c0, b0, contents, broken, [r], [term])
  {
    hide Denotes, Ordered;
  }

  lemma CollectNext(c0: seq<Content>, b0: bool, contents: seq<Content>, broken: bool, after: seq<Content>, afterBroken: bool,
                    results: seq<Option<nat>>, terms: seq<Term>, r: Option<nat>, term: Term)
    requires Collected(c0, b0, contents, broken, results, terms) && Made(contents, broken, after, afterBroken, r, term)
    ensures Collected(c0, b0, after, afterBroken, results + [r], terms + [term])
  {
    hide Denotes, Ordered, AllDenote;
    PartsNext(contents, broken, after, afterBroken, results, terms, r, term);
    assert (results + [r])[|results|] == r;
    assert forall x | x in results :: x in results + [r];
  }

  lemma CollectDone(c0: seq<Content>, b0: bool, contents: seq<Content>, broken: bool, after: seq<Content>, afterBroken: bool,
                    results: seq<Option<nat>>, terms: seq<Term>, r: Option<nat>, term: Term)
    requires Collected(c0, b0, contents, broken, results, terms) && Made(contents, broken, after, afterBroken, r, term)
    requires None in results ==> r.None?
    ensures Made(c0, b0, after, afterBroken, r, term)
  {
    hide Denotes, Ordered, Parts;
  }

  /** A collected list, after something else was made. */
  lemma CollectedStays(c0: seq<Content>, b0: bool, contents: seq<Content>, broken: bool, after: seq<Content>, afterBroken: bool,
                       results: seq<Option<nat>>, terms: seq<Term>)
    requires Collected(c0, b0, contents, broken, results, terms) && Grown(contents, broken, after, afterBroken)
    ensures Parts(after, afterBroken, results, terms) && Grown(c0, b0, after, afterBroken)
  {
    hide Denotes, Ordered;
    PartsStay(contents, broken, after, afterBroken, results, terms);
  }

  lemma OtherWord(name: string)
    requires |name| != 6
    ensures Word(name) != Word("number")
  {
  }

  lemma MadeThen(c0: seq<Content>, b0: bool, c1: seq<Content>, b1: bool, c2: seq<Content>, b2: bool, r1: Option<nat>, t1: Term, r2: Option<nat>, t2: Term)
    requires Made(c0, b0, c1, b1, r1, t1) && Made(c1, b1, c2, b2, r2, t2) && (r1.None? ==> r2.None?)
    ensures Made(c0, b0, c2, b2, r2, t2)
  {
  }

  // ----- memos -----

  ghost predicate RecordsOk(records: map<seq<nat>, nat>, contents: seq<Content>, tag: nat) {
    && (forall k | k in records :: RecordAt(records[k], k, contents) && k != [] && k[0] != tag)
    && (forall i | 0 <= i < |contents| && contents[i].Children? && contents[i].indexes != [] && contents[i].indexes[0] != tag ::
      contents[i].indexes in records && records[contents[i].indexes] == i)
  }

  ghost predicate RecordAt(i: nat, k: seq<nat>, contents: seq<Content>) {
    i < |contents| && contents[i] == Children(k)
  }

  ghost predicate PiecesOk(pieces: seq<Option<nat>>, contents: seq<Content>) {
    forall p | 0 <= p < |pieces| && pieces[p].Some? :: Denotes(contents, pieces[p].value, PieceTerm(p))
  }

  ghost predicate SquaresOk(squares: seq<Option<nat>>, contents: seq<Content>) {
    forall s | 0 <= s < |squares| && squares[s].Some? :: Denotes(contents, squares[s].value, SquareTerm(s))
  }

  ghost predicate PositionsOk(positions: map<Key, nat>, contents: seq<Content>) {
    forall k | k in positions :: Denotes(contents, positions[k], PositionTerm(k))
  }

  ghost predicate MovesOk(moves: map<Action, nat>, contents: seq<Content>) {
    forall a | a in moves :: Denotes(contents, moves[a], MoveTerm(a))
  }

  ghost predicate TagOk(tag: Option<nat>, strings: map<seq<Byte>, nat>) {
    tag.Some? && Word("number") in strings && strings[Word("number")] == tag.value
  }

  lemma CachesStay(pieces: seq<Option<nat>>, squares: seq<Option<nat>>, positions: map<Key, nat>, moves: map<Action, nat>, contents: seq<Content>, after: seq<Content>)
    requires PiecesOk(pieces, contents) && SquaresOk(squares, contents) && PositionsOk(positions, contents) && MovesOk(moves, contents)
    requires Ordered(after) && contents <= after
    ensures PiecesOk(pieces, after) && SquaresOk(squares, after) && PositionsOk(positions, after) && MovesOk(moves, after)
  {
    hide Ordered, Denotes, PieceTerm, SquareTerm, PositionTerm, MoveTerm;
    forall p | 0 <= p < |pieces| && pieces[p].Some?
      ensures Denotes(after, pieces[p].value, PieceTerm(p))
    {
      StillDenotes(contents, after, pieces[p].value, PieceTerm(p));
    }
    forall s | 0 <= s < |squares| && squares[s].Some?
      ensures Denotes(after, squares[s].value, SquareTerm(s))
    {
      StillDenotes(contents, after, squares[s].value, SquareTerm(s));
    }
    forall k | k in positions
      ensures Denotes(after, positions[k], PositionTerm(k))
    {
      StillDenotes(contents, after, positions[k], PositionTerm(k));
    }
    forall a | a in moves
      ensures Denotes(after, moves[a], MoveTerm(a))
    {
      StillDenotes(contents, after, moves[a], MoveTerm(a));
    }
  }

  /** Texts and numerals add no record of the memo. */
  lemma RecordsStay(records: map<seq<nat>, nat>, contents: seq<Content>, after: seq<Content>, tag: nat)
    requires RecordsOk(records, contents, tag) && contents <= after
    requires forall i | |contents| <= i < |after| :: after[i].Letters? || (after[i].indexes != [] && after[i].indexes[0] == tag)
    ensures RecordsOk(records, after, tag)
  {
    forall k | k in records
      ensures RecordAt(records[k], k, after)
    {
      assert RecordAt(records[k], k, contents);
    }
    forall i | 0 <= i < |after| && after[i].Children? && after[i].indexes != [] && after[i].indexes[0] != tag
      ensures after[i].indexes in records && records[after[i].indexes] == i
    {
      assert after[i] == contents[i];
    }
  }

  lemma RecordsAppend(records: map<seq<nat>, nat>, contents: seq<Content>, tag: nat, k: seq<nat>)
    requires RecordsOk(records, contents, tag) && k != [] && k[0] != tag && k !in records
    ensures RecordsOk(records[k := |contents|], contents + [Children(k)], tag)
    ensures Children(k) !in contents
  {
    var after, memo := contents + [Children(k)], records[k := |contents|];
    forall i | 0 <= i < |contents|
      ensures contents[i] != Children(k)
    {
      assert contents[i].Children? && contents[i].indexes != [] && contents[i].indexes[0] != tag ==> contents[i].indexes in records;
    }
    forall j | j in memo
      ensures RecordAt(memo[j], j, after)
    {
      if j != k {
        assert RecordAt(records[j], j, contents);
      }
    }
    forall i | 0 <= i < |after| && after[i].Children? && after[i].indexes != [] && after[i].indexes[0] != tag
      ensures after[i].indexes in memo && memo[after[i].indexes] == i
    {
      if i < |contents| {
        assert after[i] == contents[i];
      }
    }
  }

  /** A term that is not the number tag has another index. */
  lemma NotTheTag(contents: seq<Content>, strings: map<seq<Byte>, nat>, tag: Option<nat>, i: nat, name: string)
    requires TagOk(tag, strings) && StringsOk(strings, contents) && Denotes(contents, i, Written(name)) && Word(name) != Word("number")
    ensures i != tag.value
  {
    hide StringsOk;
    TagMeans(contents, strings, tag);
  }

  lemma TagMeans(contents: seq<Content>, strings: map<seq<Byte>, nat>, tag: Option<nat>)
    requires TagOk(tag, strings) && StringsOk(strings, contents) && Ordered(contents)
    ensures Denotes(contents, tag.value, Written("number"))
  {
    StringMeans(contents, strings, Word("number"));
  }

  lemma StringMeans(contents: seq<Content>, strings: map<seq<Byte>, nat>, word: seq<Byte>)
    requires StringsOk(strings, contents) && Ordered(contents) && word in strings && word != []
    requires forall i | 0 <= i < |word| :: word[i] < 0x80
    ensures Denotes(contents, strings[word], Term.Text(word))
  {
    hide Encodes;
    Ascii(word);
    TextUnique(word, word, contents[strings[word]].scalars);
  }

  lemma NodeMeans(contents: seq<Content>, i: nat, results: seq<Option<nat>>, terms: seq<Term>, k: seq<nat>)
    requires Ordered(contents) && i < |contents| && contents[i] == Children(k)
    requires AllDenote(contents, results, terms) && |k| == |results| && forall j | 0 <= j < |k| :: results[j] == Some(k[j])
    ensures Denotes(contents, i, Term.Node(terms))
  {
    var m := Meaning(contents, i);
    forall j | 0 <= j < |terms|
      ensures m.children[j] == terms[j]
    {
      MeaningChild(contents, i, j);
    }
    assert ContentOk(contents[i], i);
    assert m.children == terms;
  }

  /** The chess part of the builder: caches over a common plan. */
  class LineBuilder {
    const base: Builder
    var numberTag: Option<nat>
    var pieces: seq<Option<nat>>
    var squares: seq<Option<nat>>
    var positions: map<Key, nat>
    var moves: map<Action, nat>
    var records: map<seq<nat>, nat>
    var positionRoots: seq<nat>
    var moveRoots: seq<nat>
    var lineRoots: seq<nat>

    /** What holds as long as no limit has been hit. */
    ghost predicate Memos()
      reads `numberTag, `pieces, `squares, `positions, `moves, `records, base
    {
      && TagOk(numberTag, base.stringIndexes)
      && NumbersOk(base.numberIndexes, base.stringIndexes, base.contents, numberTag.value)
      && RecordsOk(records, base.contents, numberTag.value)
      && PiecesOk(pieces, base.contents) && SquaresOk(squares, base.contents)
      && PositionsOk(positions, base.contents) && MovesOk(moves, base.contents)
    }

    /** What holds in any case. */
    ghost predicate Shape()
      reads `numberTag, `pieces, `squares, `positions, `moves, `records, base
    {
      && |pieces| == 15 && |squares| == 64
      && (numberTag.None? ==> base.broken && base.maximumOperands < 6 && positions == map[])
      && forall k | k in records :: |k| <= base.maximumOperands
    }

    ghost predicate Valid()
      reads `numberTag, `pieces, `squares, `positions, `moves, `records, base
    {
      base.Valid() && !base.misused && Closed(base.universe) && Shape() && (!base.broken ==> Memos())
    }

    constructor (maximumRequests: nat, maximumOperands: nat, ghost universe: set<Term>)
      requires maximumRequests > 0 && Closed(universe) && Written("number") in universe
      ensures Valid() && fresh(base)
      ensures base.maximumRequests == maximumRequests && base.maximumOperands == maximumOperands && base.universe == universe
      ensures numberTag.Some? ==> !base.broken
      ensures positionRoots == [] && moveRoots == [] && lineRoots == []
    {
      hide Tiled, StringsOk, NumbersOk, RecordsOk, AtomsOk, Distinct, Denotes, Ordered, Encodes, PiecesOk, SquaresOk, PositionsOk, MovesOk;
      base := new Builder(maximumRequests, maximumOperands, universe);
      pieces, squares := seq(15, _ => None), seq(64, _ => None);
      positions, moves, records := map[], map[], map[];
      positionRoots, moveRoots, lineRoots := [], [], [];
      new;
      NumberWord();
      numberTag := base.String(Word("number"));
      if !base.broken {
        FreshMemos(base.contents, base.stringIndexes, numberTag.value, pieces, squares);
      }
    }

    /** The parts of a term that is to be requested are to be requested too. */
    lemma Inside(parts: seq<Term>)
      requires Valid() && Term.Node(parts) in base.universe
      ensures forall k | 0 <= k < |parts| :: parts[k] in base.universe
    {
      hide AtomsOk, Tiled, Distinct, StringsOk, NumbersOk, RecordsOk, PiecesOk, SquaresOk, PositionsOk, MovesOk, Ordered, Meanings, Exceeds;
    }

    lemma FieldInside(name: string, value: Term)
      requires Valid() && FieldTerm(name, value) in base.universe
      ensures Written(name) in base.universe && value in base.universe
    {
      hide Valid;
      var parts := [Written(name), value];
      Inside(parts);
      assert parts[0] in base.universe && parts[1] in base.universe;
    }

    lemma NumberInside(value: nat)
      requires Valid() && NumberTerm(value) in base.universe
      ensures Term.Text(Decimal(value)) in base.universe
    {
      hide Valid, Decimal;
      var parts := [Written("number"), Term.Text(Decimal(value))];
      Inside(parts);
      assert parts[1] in base.universe;
    }

    method Text(name: string) returns (r: Option<nat>)
      requires Valid() && name != [] && Written(name) in base.universe
      modifies base
      ensures Valid() && Made(old(base.contents), old(base.broken), base.contents, base.broken, r, Written(name))
    {
      hide Tiled, StringsOk, NumbersOk, RecordsOk, PiecesOk, SquaresOk, PositionsOk, MovesOk, AtomsOk, Distinct, Denotes, Ordered;
      Ascii(Word(name));
      r := base.String(Word(name));
      if !base.broken {
        StringMeans(base.contents, base.stringIndexes, Word(name));
        CachesStay(pieces, squares, positions, moves, old(base.contents), base.contents);
        RecordsStay(records, old(base.contents), base.contents, numberTag.value);
        NumbersStay(base.numberIndexes, old(base.stringIndexes), old(base.contents), base.stringIndexes, base.contents, numberTag.value);
      }
    }

    /** A numeral. */
    method NumberNode(value: nat) returns (r: Option<nat>)
      requires Valid() && NumberTerm(value) in base.universe
      modifies base
      ensures Valid() && Made(old(base.contents), old(base.broken), base.contents, base.broken, r, NumberTerm(value))
    {
      hide Tiled, StringsOk, NumbersOk, RecordsOk, PiecesOk, SquaresOk, PositionsOk, MovesOk, AtomsOk, Distinct, Denotes, Ordered, Decimal, NumberTerm;
      if !base.broken {
        NumberInside(value);
        TagMeans(base.contents, base.stringIndexes, numberTag);
        NumberIsMeant(base.contents, numberTag, value, base.universe);
      }
      r := base.Number(value, numberTag);
      if !base.broken {
        NumberMeans(base.contents, base.stringIndexes, base.numberIndexes, numberTag, value);
        CachesStay(pieces, squares, positions, moves, old(base.contents), base.contents);
        RecordsStay(records, old(base.contents), base.contents, numberTag.value);
      }
    }

    /** A record, made once. */
    method Record(children: seq<Option<nat>>, ghost terms: seq<Term>, ghost name: string) returns (r: Option<nat>)
      requires Valid() && 2 <= |children| && Term.Node(terms) in base.universe
      requires Parts(base.contents, base.broken, children, terms)
      requires terms[0] == Written(name) && Word(name) != Word("number")
      modifies base, `records
      ensures Valid() && Made(old(base.contents), old(base.broken), base.contents, base.broken, r, Term.Node(terms))
      ensures |children| > base.maximumOperands || None in children ==> r.None?
    {
      hide Tiled, StringsOk, NumbersOk, RecordsOk, PiecesOk, SquaresOk, PositionsOk, MovesOk, AtomsOk, Distinct, Denotes, Ordered;
      if None in children {
        return None;
      }
      var key := Values(children);
      if key in records {
        if !base.broken {
          RecordMeans(records, base.contents, numberTag.value, key, children, terms);
        }
        return Some(records[key]);
      }
      if !base.broken {
        NotTheTag(base.contents, base.stringIndexes, numberTag, key[0], name);
        RecordIsMeant(base.contents, children, terms, key, base.universe);
        RecordsAppend(records, base.contents, numberTag.value, key);
      }
      r := base.NodeRequest(key);
      if r.None? {
        return;
      }
      records := records[key := r.value];
      if !base.broken {
        AppendMeans(old(base.contents), base.contents, children, terms, key);
        CachesStay(pieces, squares, positions, moves, old(base.contents), base.contents);
        NumbersStay(base.numberIndexes, base.stringIndexes, old(base.contents), base.stringIndexes, base.contents, numberTag.value);
      }
    }

    method Field(name: string, value: Option<nat>, ghost term: Term) returns (r: Option<nat>)
      requires Valid() && name != [] && |name| != 6 && Held(base.contents, base.broken, value, term) && FieldTerm(name, term) in base.universe
      modifies base, `records
      ensures Valid() && Made(old(base.contents), old(base.broken), base.contents, base.broken, r, FieldTerm(name, term))
      ensures value.None? ==> r.None?
    {
      hide Valid, Denotes, Ordered, Written, Held;
      ghost var c0, b0 := base.contents, base.broken;
      FieldInside(name, term);
      var heading := Text(name);
      ghost var c1, b1 := base.contents, base.broken;
      MadeHeld(c0, b0, c1, b1, heading, Written(name));
      HeldStays(c0, b0, c1, b1, value, term);
      PartsOf2(c1, b1, heading, value, Written(name), term);
      OtherWord(name);
      r := Record([heading, value], [Written(name), term], name);
      assert [heading, value][0] == heading && [heading, value][1] == value;
    }

    method PieceRecord(piece: nat) returns (r: Option<nat>)
      requires Valid() && piece != 0 && PieceTerm(piece) in base.universe
      modifies base, `records
      ensures Valid() && Made(old(base.contents), old(base.broken), base.contents, base.broken, r, PieceTerm(piece))
    {
      hide Valid, Denotes, Ordered, Written, Held, Parts;
      ghost var c0, b0 := base.contents, base.broken;
      ghost var terms := [Written("Chess_Piece"), Written(SideName(Side(piece))), Written(KindName(Kind(piece)))];
      Inside(terms);
      assert terms[0] in base.universe && terms[1] in base.universe && terms[2] in base.universe;
      var tag := Text("Chess_Piece");
      ghost var c1, b1 := base.contents, base.broken;
      PartsStart(c0, b0, c1, b1, tag, Written("Chess_Piece"));
      var side := Text(SideName(Side(piece)));
      ghost var c2, b2 := base.contents, base.broken;
      PartsNext(c1, b1, c2, b2, [tag], [Written("Chess_Piece")], side, Written(SideName(Side(piece))));
      var kind := Text(KindName(Kind(piece)));
      ghost var c3, b3 := base.contents, base.broken;
      assert [tag] + [side] == [tag, side] && [Written("Chess_Piece")] + [Written(SideName(Side(piece)))] == [Written("Chess_Piece"), Written(SideName(Side(piece)))];
      PartsNext(c2, b2, c3, b3, [tag, side], [Written("Chess_Piece"), Written(SideName(Side(piece)))], kind, Written(KindName(Kind(piece))));
      assert [tag, side] + [kind] == [tag, side, kind];
      OtherWord("Chess_Piece");
      assert [Written("Chess_Piece"), Written(SideName(Side(piece)))] + [Written(KindName(Kind(piece)))] == terms;
      r := Record([tag, side, kind], terms, "Chess_Piece");
      assert [tag, side, kind][0] == tag && [tag, side, kind][1] == side && [tag, side, kind][2] == kind;
    }

    method CachePiece(piece: nat, r: Option<nat>)
      requires Valid() && piece < 15 && (!base.broken && r.Some? ==> Denotes(base.contents, r.value, PieceTerm(piece)))
      modifies `pieces
      ensures Valid()
    {
      hide Denotes, Ordered, AtomsOk, Tiled, Distinct, StringsOk, NumbersOk, RecordsOk, SquaresOk, PositionsOk, MovesOk, PieceTerm;
      pieces := pieces[piece := r];
    }

    lemma CachedPiece(piece: nat)
      requires Valid() && piece < 15
      ensures |pieces| == 15
      ensures pieces[piece].Some? ==> Made(base.contents, base.broken, base.contents, base.broken, pieces[piece], PieceTerm(piece))
    {
      hide Ordered, AtomsOk, Tiled, Distinct, StringsOk, NumbersOk, RecordsOk, SquaresOk, PositionsOk, MovesOk, PieceTerm, Denotes;
      if pieces[piece].Some? {
        MadeCached(base.contents, base.broken, pieces[piece], PieceTerm(piece));
      }
    }

    /** The node of a piece, cached by its code. */
    method PieceNode(piece: nat) returns (r: Option<nat>)
      requires Valid() && PieceCode(piece) && PieceTerm(piece) in base.universe
      modifies base, `records, `pieces
      ensures Valid() && Made(old(base.contents), old(base.broken), base.contents, base.broken, r, PieceTerm(piece))
    {
      hide Valid, Denotes, Ordered, Written;
      CachedPiece(piece);
      if pieces[piece].Some? {
        return pieces[piece];
      }
      if piece == 0 {
        r := Text("empty");
      } else {
        r := PieceRecord(piece);
      }
      CachePiece(piece, r);
    }

    method SquareRecord(square: nat) returns (r: Option<nat>)
      requires Valid() && square < NO_SQUARE && SquareTerm(square) in base.universe
      modifies base, `records
      ensures Valid() && Made(old(base.contents), old(base.broken), base.contents, base.broken, r, SquareTerm(square))
    {
      hide Valid, Denotes, Ordered, Written, Held, Parts, FieldTerm, NumberTerm;
      ghost var c0, b0 := base.contents, base.broken;
      ghost var columnTerm, rowTerm := FieldTerm("file", NumberTerm(square % 8)), FieldTerm("rank", NumberTerm(square / 8));
      ghost var terms := [Written("Chess_Square"), columnTerm, rowTerm];
      Inside(terms);
      assert terms[0] in base.universe && terms[1] in base.universe && terms[2] in base.universe;
      var tag := Text("Chess_Square");
      ghost var c1, b1 := base.contents, base.broken;
      PartsStart(c0, b0, c1, b1, tag, Written("Chess_Square"));
      var column := NumberField("file", square % 8);
      ghost var c2, b2 := base.contents, base.broken;
      PartsNext(c1, b1, c2, b2, [tag], [Written("Chess_Square")], column, columnTerm);
      var row := NumberField("rank", square / 8);
      ghost var c3, b3 := base.contents, base.broken;
      assert [tag] + [column] == [tag, column] && [Written("Chess_Square")] + [columnTerm] == [Written("Chess_Square"), columnTerm];
      PartsNext(c2, b2, c3, b3, [tag, column], [Written("Chess_Square"), columnTerm], row, rowTerm);
      assert [tag, column] + [row] == [tag, column, row];
      OtherWord("Chess_Square");
      assert [Written("Chess_Square"), columnTerm] + [rowTerm] == terms;
      r := Record([tag, column, row], terms, "Chess_Square");
      assert [tag, column, row][0] == tag && [tag, column, row][1] == column && [tag, column, row][2] == row;
    }

    method NumberField(name: string, value: nat) returns (r: Option<nat>)
      requires Valid() && name != [] && |name| != 6 && FieldTerm(name, NumberTerm(value)) in base.universe
      modifies base, `records
      ensures Valid() && Made(old(base.contents), old(base.broken), base.contents, base.broken, r, FieldTerm(name, NumberTerm(value)))
    {
      hide Valid, Denotes, Ordered, Written, Held, FieldTerm, NumberTerm;
      ghost var c0, b0 := base.contents, base.broken;
      FieldInside(name, NumberTerm(value));
      var number := NumberNode(value);
      ghost var c1, b1 := base.contents, base.broken;
      MadeHeld(c0, b0, c1, b1, number, NumberTerm(value));
      r := Field(name, number, NumberTerm(value));
      MadeThen(c0, b0, c1, b1, base.contents, base.broken, number, NumberTerm(value), r, FieldTerm(name, NumberTerm(value)));
    }

    method CacheSquare(square: nat, r: Option<nat>)
      requires Valid() && square < 64 && (!base.broken && r.Some? ==> Denotes(base.contents, r.value, SquareTerm(square)))
      modifies `squares
      ensures Valid() && |squares| == 64 && squares[square] == r
    {
      hide Denotes, Ordered, AtomsOk, Tiled, Distinct, StringsOk, NumbersOk, RecordsOk, PiecesOk, PositionsOk, MovesOk, SquareTerm;
      squares := squares[square := r];
    }

    lemma CachedSquare(square: nat)
      requires Valid() && square < 64
      ensures |squares| == 64
      ensures squares[square].Some? ==> Made(base.contents, base.broken, base.contents, base.broken, squares[square], SquareTerm(square))
    {
      hide Ordered, AtomsOk, Tiled, Distinct, StringsOk, NumbersOk, RecordsOk, PiecesOk, PositionsOk, MovesOk, SquareTerm, Denotes;
      if squares[square].Some? {
        MadeCached(base.contents, base.broken, squares[square], SquareTerm(square));
      }
    }

    /** The node of a square, or of no square. */
    method Square(square: nat) returns (r: Option<nat>)
      requires Valid() && square <= NO_SQUARE && SquareTerm(square) in base.universe
      modifies base, `records, `squares
      ensures Valid() && Made(old(base.contents), old(base.broken), base.contents, base.broken, r, SquareTerm(square))
    {
      hide Valid, Denotes, Ordered, Written;
      if square == NO_SQUARE {
        r := Text("none");
        return;
      }
      CachedSquare(square);
      if squares[square].None? {
        var made := SquareRecord(square);
        CacheSquare(square, made);
      }
      r := squares[square];
    }

    /** The board, in order. */
    method BoardNodes(board: Board) returns (results: seq<Option<nat>>)
      requires Valid() && Term.Node(BoardParts(board)) in base.universe && forall square | 0 <= square < 64 :: PieceCode(board[square])
      modifies base, `records, `pieces
      ensures Valid() && |results| == 65
      ensures Collected(old(base.contents), old(base.broken), base.contents, base.broken, results, BoardParts(board))
    {
      hide Valid, Denotes, Ordered, Written, PieceTerm, Collected, PieceCode, Made;
      ghost var c0, b0, parts := base.contents, base.broken, BoardParts(board);
      Inside(parts);
      assert parts[0] in base.universe;
      var tag := Text("board");
      CollectFirst(c0, b0, base.contents, base.broken, tag, Written("board"));
      results := [tag];
      assert parts[..1] == [Written("board")];
      for square := 0 to 64
        invariant Valid() && |results| == square + 1
        invariant Collected(c0, b0, base.contents, base.broken, results, parts[..square + 1])
      {
        ghost var c1, b1 := base.contents, base.broken;
        assert parts[square + 1] in base.universe;
        var piece := PieceNode(board[square]);
        CollectNext(c0, b0, c1, b1, base.contents, base.broken, results, parts[..square + 1], piece, PieceTerm(board[square]));
        results := results + [piece];
        assert parts[..square + 2] == parts[..square + 1] + [PieceTerm(board[square])];
      }
      assert parts[..65] == parts;
    }

    /** The four rights, in order. */
    method RightsNodes(rights: nat) returns (results: seq<Option<nat>>)
      requires Valid() && RightsTerm(rights) in base.universe
      modifies base
      ensures Valid() && |results| == 5
      ensures Collected(old(base.contents), old(base.broken), base.contents, base.broken, results, RightsParts(rights))
    {
      hide Valid, Denotes, Ordered, Written, Collected, Made, Has;
      ghost var c0, b0 := base.contents, base.broken;
      ghost var terms := RightsParts(rights);
      Inside(terms);
      assert terms[0] in base.universe;
      var tag := Text("castling-rights");
      CollectFirst(c0, b0, base.contents, base.broken, tag, Written("castling-rights"));
      results := [tag];
      assert terms[..1] == [Written("castling-rights")];
      var unit := 1;
      for bit := 0 to 4
        invariant Valid() && |results| == bit + 1 && unit == BitUnit(bit)
        invariant Collected(c0, b0, base.contents, base.broken, results, terms[..bit + 1])
      {
        ghost var c1, b1 := base.contents, base.broken;
        assert terms[bit + 1] in base.universe;
        var right := Text(RightName(Has(rights, unit)));
        CollectNext(c0, b0, c1, b1, base.contents, base.broken, results, terms[..bit + 1], right, Written(RightName(Has(rights, unit))));
        results := results + [right];
        assert terms[..bit + 2] == terms[..bit + 1] + [terms[bit + 1]];
        unit := unit * 2;
      }
      assert terms[..5] == terms;
    }

    method TextField(name: string, value: string) returns (r: Option<nat>)
      requires Valid() && name != [] && |name| != 6 && value != [] && FieldTerm(name, Written(value)) in base.universe
      modifies base, `records
      ensures Valid() && Made(old(base.contents), old(base.broken), base.contents, base.broken, r, FieldTerm(name, Written(value)))
    {
      hide Valid, Denotes, Ordered, Written, Held, FieldTerm;
      ghost var c0, b0 := base.contents, base.broken;
      FieldInside(name, Written(value));
      var text := Text(value);
      ghost var c1, b1 := base.contents, base.broken;
      MadeHeld(c0, b0, c1, b1, text, Written(value));
      r := Field(name, text, Written(value));
      MadeThen(c0, b0, c1, b1, base.contents, base.broken, text, Written(value), r, FieldTerm(name, Written(value)));
    }

    method SquareField(name: string, square: nat) returns (r: Option<nat>)
      requires Valid() && name != [] && |name| != 6 && square <= NO_SQUARE && FieldTerm(name, SquareTerm(square)) in base.universe
      modifies base, `records, `squares
      ensures Valid() && Made(old(base.contents), old(base.broken), base.contents, base.broken, r, FieldTerm(name, SquareTerm(square)))
    {
      hide Valid, Denotes, Ordered, Written, Held, FieldTerm, SquareTerm;
      ghost var c0, b0 := base.contents, base.broken;
      FieldInside(name, SquareTerm(square));
      var node := Square(square);
      ghost var c1, b1 := base.contents, base.broken;
      MadeHeld(c0, b0, c1, b1, node, SquareTerm(square));
      r := Field(name, node, SquareTerm(square));
      MadeThen(c0, b0, c1, b1, base.contents, base.broken, node, SquareTerm(square), r, FieldTerm(name, SquareTerm(square)));
    }

    lemma PositionInside(key: Key)
      requires Valid() && PositionTerm(key) in base.universe
      ensures Written("Chess_Position") in base.universe && Term.Node(BoardParts(key.pieces)) in base.universe && RightsTerm(key.rights) in base.universe
      ensures FieldTerm("side-to-move", Written(SideName(key.side))) in base.universe
      ensures FieldTerm("legal-en-passant", SquareTerm(key.enPassant)) in base.universe
    {
      hide Valid, Written, FieldTerm, SquareTerm, BoardParts, RightsTerm;
      var parts := PositionParts(key);
      Inside(parts);
      assert parts[0] in base.universe && parts[1] in base.universe && parts[2] in base.universe && parts[3] in base.universe && parts[4] in base.universe;
    }

    lemma MoveInside(a: Action)
      requires Valid() && MoveTerm(a) in base.universe
      ensures Written("Chess_Move") in base.universe && FieldTerm("piece", PieceTerm(a.moving)) in base.universe
      ensures FieldTerm("from", SquareTerm(a.move.from)) in base.universe && FieldTerm("to", SquareTerm(a.move.to)) in base.universe
      ensures FieldTerm("promotion", Written(PromotionName(a.move.promotion))) in base.universe
      ensures FieldTerm("form", Written(FormName(a.move.form))) in base.universe
    {
      hide Valid, Written, FieldTerm, SquareTerm, PieceTerm;
      var parts := MoveParts(a);
      Inside(parts);
      assert parts[0] in base.universe && parts[1] in base.universe && parts[2] in base.universe;
      assert parts[3] in base.universe && parts[4] in base.universe && parts[5] in base.universe;
    }

    /** The record of a position, from its parts. */
    method PositionRecord(key: Key) returns (r: Option<nat>)
      requires Valid() && KeyOk(key) && PositionTerm(key) in base.universe
      modifies base, `records, `pieces, `squares
      ensures Valid() && Made(old(base.contents), old(base.broken), base.contents, base.broken, r, PositionTerm(key))
      ensures base.maximumOperands < 65 ==> r.None?
    {
      hide Valid, Denotes, Ordered, Written, Collected, Made, Has, FieldTerm, SquareTerm, BoardParts, RightsParts, PieceCode, Parts, Held, Grown, SideName;
      ghost var c0, b0 := base.contents, base.broken;
      PositionInside(key);
      var board := BoardNodes(key.pieces);
      ghost var c1, b1 := base.contents, base.broken;
      var rights := RightsNodes(key.rights);
      ghost var c2, b2 := base.contents, base.broken;
      ghost var boardParts, rightsParts := BoardParts(key.pieces), RightsParts(key.rights);
      CollectedGrows(c0, b0, c1, b1, board, boardParts);
      CollectedGrows(c1, b1, c2, b2, rights, rightsParts);
      CollectedStays(c0, b0, c1, b1, c2, b2, board, boardParts);
      r := PositionRoot(key, board, rights);
      MadeLater(c0, b0, c2, b2, base.contents, base.broken, r, PositionTerm(key));
    }

    method PositionRoot(key: Key, board: seq<Option<nat>>, rights: seq<Option<nat>>) returns (r: Option<nat>)
      requires Valid() && KeyOk(key) && PositionTerm(key) in base.universe && |board| == 65 && |rights| == 5
      requires Parts(base.contents, base.broken, board, BoardParts(key.pieces))
      requires Parts(base.contents, base.broken, rights, RightsParts(key.rights))
      modifies base, `records, `squares
      ensures Valid() && Made(old(base.contents), old(base.broken), base.contents, base.broken, r, PositionTerm(key))
      ensures None in board || None in rights || base.maximumOperands < 65 ==> r.None?
    {
      hide Valid, Denotes, Ordered, Written, Collected, Made, FieldTerm, Parts, Held, Grown, KeyOk, BoardParts, RightsParts;
      ghost var c0, b0, terms := base.contents, base.broken, PositionParts(key);
      var results := PositionNodes(key, board, rights);
      ghost var c1, b1 := base.contents, base.broken;
      CollectedGrows(c0, b0, c1, b1, results, terms);
      OtherWord("Chess_Position");
      r := Record(results, terms, "Chess_Position");
      CollectDone(c0, b0, c1, b1, base.contents, base.broken, results, terms, r, Term.Node(terms));
    }

    /** The parts of a position, in order. */
    method PositionNodes(key: Key, board: seq<Option<nat>>, rights: seq<Option<nat>>) returns (results: seq<Option<nat>>)
      requires Valid() && KeyOk(key) && PositionTerm(key) in base.universe && |board| == 65 && |rights| == 5
      requires Parts(base.contents, base.broken, board, BoardParts(key.pieces))
      requires Parts(base.contents, base.broken, rights, RightsParts(key.rights))
      modifies base, `records, `squares
      ensures Valid() && |results| == 5 && Collected(old(base.contents), old(base.broken), base.contents, base.broken, results, PositionParts(key))
      ensures None in board || None in rights || base.maximumOperands < 65 ==> None in results
    {
      hide Valid, Denotes, Ordered, Written, Collected, Made, Has, FieldTerm, SquareTerm, PieceCode, Parts, Held, Grown, SideName, KeyOk, BoardParts, RightsParts;
      RightsFirst(key.rights);
      KeyTarget(key);
      PositionInside(key);
      ghost var c0, b0, boardParts, rightsParts := base.contents, base.broken, BoardParts(key.pieces), RightsParts(key.rights);
      var tag := Text("Chess_Position");
      ghost var c1, b1 := base.contents, base.broken;
      CollectFirst(c0, b0, c1, b1, tag, Written("Chess_Position"));
      MadeHeld(c0, b0, c1, b1, tag, Written("Chess_Position"));
      PartsStay(c0, b0, c1, b1, board, boardParts);
      PartsStay(c0, b0, c1, b1, rights, rightsParts);
      OtherWord("board");
      var boardRoot := Record(board, boardParts, "board");
      ghost var c2, b2 := base.contents, base.broken;
      CollectNext(c0, b0, c1, b1, c2, b2, [tag], [Written("Chess_Position")], boardRoot, Term.Node(boardParts));
      MadeHeld(c1, b1, c2, b2, boardRoot, Term.Node(boardParts));
      PartsStay(c1, b1, c2, b2, rights, rightsParts);
      var side := TextField("side-to-move", SideName(key.side));
      ghost var c3, b3, sideTerm := base.contents, base.broken, FieldTerm("side-to-move", Written(SideName(key.side)));
      CollectNext(c0, b0, c2, b2, c3, b3, [tag] + [boardRoot], [Written("Chess_Position")] + [Term.Node(boardParts)], side, sideTerm);
      MadeHeld(c2, b2, c3, b3, side, sideTerm);
      PartsStay(c2, b2, c3, b3, rights, rightsParts);
      OtherWord("castling-rights");
      var rightsRoot := Record(rights, rightsParts, "castling-rights");
      ghost var c4, b4 := base.contents, base.broken;
      CollectNext(c0, b0, c3, b3, c4, b4, [tag] + [boardRoot] + [side], [Written("Chess_Position")] + [Term.Node(boardParts)] + [sideTerm], rightsRoot, RightsTerm(key.rights));
      var target := SquareField("legal-en-passant", key.enPassant);
      ghost var c5, b5, targetTerm := base.contents, base.broken, FieldTerm("legal-en-passant", SquareTerm(key.enPassant));
      CollectNext(c0, b0, c4, b4, c5, b5, [tag] + [boardRoot] + [side] + [rightsRoot],
                  [Written("Chess_Position")] + [Term.Node(boardParts)] + [sideTerm] + [RightsTerm(key.rights)], target, targetTerm);
      ghost var terms := [Written("Chess_Position")] + [Term.Node(boardParts)] + [sideTerm] + [RightsTerm(key.rights)] + [targetTerm];
      results := [tag] + [boardRoot] + [side] + [rightsRoot] + [target];
      assert results[1] == boardRoot && results[3] == rightsRoot;
      assert terms == [Written("Chess_Position"), Term.Node(boardParts), sideTerm, RightsTerm(key.rights), targetTerm];
    }

    /** A position's node, cached. */
    method PositionNode(p: Position) returns (r: Option<nat>)
      requires Valid() && KeyOk(KeyOf(p)) && PositionTerm(KeyOf(p)) in base.universe
      modifies base, `records, `pieces, `squares, `positions
      ensures Valid() && Made(old(base.contents), old(base.broken), base.contents, base.broken, r, PositionTerm(KeyOf(p)))
      ensures numberTag.None? ==> r.None?
    {
      hide Denotes, Ordered, Written, AtomsOk, Tiled, Distinct, StringsOk, NumbersOk, RecordsOk, PiecesOk, SquaresOk, MovesOk, PositionTerm;
      var key := KeyOf(p);
      if key in positions {
        return Some(positions[key]);
      }
      r := PositionRecord(key);
      if r.Some? {
        positions := positions[key := r.value];
      }
    }

    method MoveRecord(a: Action) returns (r: Option<nat>)
      requires Valid() && ActionOk(a) && MoveTerm(a) in base.universe
      modifies base, `records, `pieces, `squares
      ensures Valid() && Made(old(base.contents), old(base.broken), base.contents, base.broken, r, MoveTerm(a))
    {
      hide Valid, Denotes, Ordered, Written, Collected, Made, FieldTerm, Parts, Held, Grown;
      ghost var c0, b0, terms := base.contents, base.broken, MoveParts(a);
      var results := MoveNodes(a);
      ghost var c1, b1 := base.contents, base.broken;
      CollectedGrows(c0, b0, c1, b1, results, terms);
      OtherWord("Chess_Move");
      r := Record(results, terms, "Chess_Move");
      CollectDone(c0, b0, c1, b1, base.contents, base.broken, results, terms, r, Term.Node(terms));
    }

    /** The parts of a move, in order. */
    method MoveNodes(a: Action) returns (results: seq<Option<nat>>)
      requires Valid() && ActionOk(a) && MoveTerm(a) in base.universe
      modifies base, `records, `pieces, `squares
      ensures Valid() && |results| == 6 && Collected(old(base.contents), old(base.broken), base.contents, base.broken, results, MoveParts(a))
    {
      hide Valid, Denotes, Ordered, Written, Collected, Made, FieldTerm, SquareTerm, PieceTerm, PieceCode, Parts, Held, Grown, PromotionName, FormName;
      ghost var c0, b0 := base.contents, base.broken;
      MoveInside(a);
      var tag := Text("Chess_Move");
      ghost var c1, b1 := base.contents, base.broken;
      CollectFirst(c0, b0, c1, b1, tag, Written("Chess_Move"));
      var piece := PieceField("piece", a.moving);
      ghost var c2, b2, t1 := base.contents, base.broken, FieldTerm("piece", PieceTerm(a.moving));
      CollectNext(c0, b0, c1, b1, c2, b2, [tag], [Written("Chess_Move")], piece, t1);
      var source := SquareField("from", a.move.from);
      ghost var c3, b3, t2 := base.contents, base.broken, FieldTerm("from", SquareTerm(a.move.from));
      CollectNext(c0, b0, c2, b2, c3, b3, [tag] + [piece], [Written("Chess_Move")] + [t1], source, t2);
      var target := SquareField("to", a.move.to);
      ghost var c4, b4, t3 := base.contents, base.broken, FieldTerm("to", SquareTerm(a.move.to));
      CollectNext(c0, b0, c3, b3, c4, b4, [tag] + [piece] + [source], [Written("Chess_Move")] + [t1] + [t2], target, t3);
      var promotion := TextField("promotion", PromotionName(a.move.promotion));
      ghost var c5, b5, t4 := base.contents, base.broken, FieldTerm("promotion", Written(PromotionName(a.move.promotion)));
      CollectNext(c0, b0, c4, b4, c5, b5, [tag] + [piece] + [source] + [target], [Written("Chess_Move")] + [t1] + [t2] + [t3], promotion, t4);
      var form := TextField("form", FormName(a.move.form));
      ghost var c6, b6, t5 := base.contents, base.broken, FieldTerm("form", Written(FormName(a.move.form)));
      CollectNext(c0, b0, c5, b5, c6, b6, [tag] + [piece] + [source] + [target] + [promotion], [Written("Chess_Move")] + [t1] + [t2] + [t3] + [t4], form, t5);
      ghost var terms := [Written("Chess_Move")] + [t1] + [t2] + [t3] + [t4] + [t5];
      results := [tag] + [piece] + [source] + [target] + [promotion] + [form];
      assert terms == [Written("Chess_Move"), t1, t2, t3, t4, t5];
    }

    method PieceField(name: string, piece: nat) returns (r: Option<nat>)
      requires Valid() && name != [] && |name| != 6 && PieceCode(piece) && FieldTerm(name, PieceTerm(piece)) in base.universe
      modifies base, `records, `pieces
      ensures Valid() && Made(old(base.contents), old(base.broken), base.contents, base.broken, r, FieldTerm(name, PieceTerm(piece)))
    {
      hide Valid, Denotes, Ordered, Written, Held, FieldTerm, PieceTerm, PieceCode;
      ghost var c0, b0 := base.contents, base.broken;
      FieldInside(name, PieceTerm(piece));
      var node := PieceNode(piece);
      ghost var c1, b1 := base.contents, base.broken;
      MadeHeld(c0, b0, c1, b1, node, PieceTerm(piece));
      r := Field(name, node, PieceTerm(piece));
      MadeThen(c0, b0, c1, b1, base.contents, base.broken, node, PieceTerm(piece), r, FieldTerm(name, PieceTerm(piece)));
    }

    /** A move's node, cached with the piece that moves. */
    method MoveNode(move: Move, moving: nat) returns (r: Option<nat>)
      requires Valid() && ActionOk(Action(move, moving)) && MoveTerm(Action(move, moving)) in base.universe
      modifies base, `records, `pieces, `squares, `moves
      ensures Valid() && Made(old(base.contents), old(base.broken), base.contents, base.broken, r, MoveTerm(Action(move, moving)))
    {
      hide Denotes, Ordered, Written, AtomsOk, Tiled, Distinct, StringsOk, NumbersOk, RecordsOk, PiecesOk, SquaresOk, PositionsOk, MoveTerm;
      var action := Action(move, moving);
      if action in moves {
        return Some(moves[action]);
      }
      r := MoveRecord(action);
      if r.Some? {
        moves := moves[action := r.value];
      }
    }

    /** The positions of the batch. */
    method BuildPositions(b: Batch) returns (ok: bool)
      requires Valid() && BatchOk(b) && Wanted(b) <= base.universe && positionRoots == [] && (numberTag.Some? ==> !base.broken)
      modifies base, `records, `pieces, `squares, `positions, `positionRoots
      ensures Valid() && (ok <==> !base.broken)
      ensures ok ==> |positionRoots| == |b.positions| && PositionsDone(base.contents, positionRoots, b.positions)
    {
      hide Valid, Denotes, Ordered, Made, PositionTerm, PositionOk, Partitioned, StepsOk, KeyOk;
      for index := 0 to |b.positions|
        invariant Valid() && |positionRoots| == index
        invariant base.broken ==> index == 0 && numberTag.None?
        invariant !base.broken ==> PositionsDone(base.contents, positionRoots, b.positions)
      {
        PositionKeyOk(b.positions[index]);
        PositionWanted(b, index);
        ghost var c0, b0 := base.contents, base.broken;
        var root := PositionNode(b.positions[index]);
        MadeExactly(c0, b0, base.contents, base.broken, root, PositionTerm(KeyOf(b.positions[index])));
        if root.None? {
          return false;
        }
        PositionsNext(c0, b0, base.contents, base.broken, positionRoots, b.positions, root);
        positionRoots := positionRoots + [root.value];
      }
      ok := true;
    }

    /** The moves of one line, and the sequence they and the positions make. */
    method BuildPlies(b: Batch, i: nat, start: seq<Option<nat>>, ghost c0: seq<Content>) returns (ok: bool, sequence: seq<Option<nat>>)
      requires Valid() && BatchOk(b) && Wanted(b) <= base.universe && i < |b.lines| && LineInside(b, i) && |start| == 2
      requires |positionRoots| == |b.positions| && PositionsDone(c0, positionRoots, b.positions)
      requires Collected(c0, false, base.contents, base.broken, start, LineParts(LineKeys(b, i, 0), LineActions(b, i, 0)))
      modifies base, `records, `pieces, `squares, `moves, `moveRoots
      ensures Valid() && (!ok ==> base.broken)
      ensures ok ==> |sequence| == 2 * b.lines[i].moveCount + 2
      ensures ok ==> Collected(c0, false, base.contents, base.broken, sequence, LineParts(LineKeys(b, i, b.lines[i].moveCount), LineActions(b, i, b.lines[i].moveCount)))
      ensures ok ==> old(|moveRoots|) <= |moveRoots| && moveRoots[..old(|moveRoots|)] == old(moveRoots)
      ensures ok ==> |moveRoots| == old(|moveRoots|) + b.lines[i].moveCount
      ensures ok && !base.broken ==> PliesDone(base.contents, moveRoots[old(|moveRoots|)..], b, i)
    {
      hide Valid, Denotes, Ordered, Made, PositionTerm, MoveTerm, BatchOk, ActionOk, Collected, PositionsDone, LineParts, LineKeys, LineActions;
      var line, n0 := b.lines[i], |moveRoots|;
      ghost var moves0 := moveRoots;
      sequence := start;
      for ply := 0 to line.moveCount
        invariant Valid() && Collected(c0, false, base.contents, base.broken, sequence, LineParts(LineKeys(b, i, ply), LineActions(b, i, ply)))
        invariant |sequence| == 2 * ply + 2
        invariant |moveRoots| == n0 + ply && moveRoots[..n0] == moves0
        invariant !base.broken ==> PliesDone(base.contents, moveRoots[n0..], b, i)
      {
        var move := b.moves[line.firstMove + ply];
        ActionIs(b, i, ply);
        MoveWanted(b, i, ply);
        var moving := b.positions[line.firstPosition + ply].pieces[move.from];
        ghost var c2, b2 := base.contents, base.broken;
        var root := MoveNode(move, moving);
        MadeExactly(c2, b2, base.contents, base.broken, root, MoveTerm(Action(move, moving)));
        if root.None? {
          return false, sequence;
        }
        LineNext(c0, c2, b2, base.contents, base.broken, sequence, positionRoots, root, b, i, ply);
        PliesNext(c2, b2, base.contents, base.broken, moveRoots[n0..], b, i, ply, root);
        assert (moveRoots + [root.value])[n0..] == moveRoots[n0..] + [root.value];
        moveRoots := moveRoots + [root.value];
        sequence := sequence + [root, Some(positionRoots[line.firstPosition + (ply + 1)])];
      }
      ok := true;
    }

    /** The moves and the record of one line. */
    method BuildLine(b: Batch, i: nat) returns (ok: bool)
      requires Valid() && BatchOk(b) && i < |b.lines| && LineInside(b, i) && !base.broken && Wanted(b) <= base.universe
      requires |positionRoots| == |b.positions| && PositionsDone(base.contents, positionRoots, b.positions)
      requires |moveRoots| == MoveStart(b.lines, i) && MovesDone(base.contents, moveRoots, b, i) && LinesDone(base.contents, lineRoots, b) && |lineRoots| == i
      modifies base, `records, `pieces, `squares, `moves, `moveRoots, `lineRoots
      ensures Valid() && (ok <==> !base.broken)
      ensures ok ==> PositionsDone(base.contents, positionRoots, b.positions)
      ensures ok ==> |moveRoots| == MoveStart(b.lines, i + 1) && MovesDone(base.contents, moveRoots, b, i + 1)
      ensures ok ==> LinesDone(base.contents, lineRoots, b) && |lineRoots| == i + 1
    {
      hide Valid, Denotes, Ordered, Made, PositionTerm, MoveTerm, BatchOk, Collected, Parts, Held, MoveStart, PositionsDone, MovesDone, LinesDone, Grown, LineParts, LineKeys, LineActions, PliesDone;
      ghost var c0 := base.contents;
      var line := b.lines[i];
      LineAt(b, i);
      LineWanted(b, i);
      Inside(LineParts(LineKeys(b, i, line.moveCount), LineActions(b, i, line.moveCount)));
      LinePartsFirst(LineKeys(b, i, line.moveCount), LineActions(b, i, line.moveCount));
      var tag := Text("Chess_Line");
      LineStarted(c0, base.contents, base.broken, tag, positionRoots, b, i);
      var start: seq<Option<nat>> := [tag, Some(positionRoots[line.firstPosition])];
      ghost var moves0, lines0 := moveRoots, lineRoots;
      var played, sequence := BuildPlies(b, i, start, c0);
      if !played {
        return false;
      }
      ghost var terms, c4, b4 := LineParts(LineKeys(b, i, line.moveCount), LineActions(b, i, line.moveCount)), base.contents, base.broken;
      CollectedGrows(c0, false, c4, b4, sequence, terms);
      OtherWord("Chess_Line");
      var root := Record(sequence, terms, "Chess_Line");
      MadeExactly(c4, b4, base.contents, base.broken, root, Term.Node(terms));
      if root.None? {
        return false;
      }
      assert moveRoots == moves0 + moveRoots[|moves0|..];
      LineFinished(c0, c4, base.contents, positionRoots, moves0, moveRoots[|moves0|..], lines0, root, b, i);
      lineRoots := lineRoots + [root.value];
      ok := true;
    }

    /** The whole plan. The number tag has been requested first. */
    method Build(b: Batch) returns (ok: bool)
      requires Valid() && BatchOk(b) && (numberTag.Some? ==> !base.broken) && Wanted(b) <= base.universe
      requires positionRoots == [] && moveRoots == [] && lineRoots == []
      modifies this, base
      ensures base.Valid() && !base.misused && (!ok ==> Exceeds(base.universe, base.maximumRequests, base.maximumOperands))
      ensures ok ==> !base.broken && Ordered(base.contents) && Written("number") in Meanings(base.contents)
      ensures ok ==> Built(base.contents, positionRoots, moveRoots, lineRoots, b)
    {
      hide Valid, Denotes, Ordered, PositionsDone, MovesDone, LinesDone, MoveStart, BatchOk, Builder.Valid, Wanted, Exceeds, Meanings, Written, LineInside;
      var placed := BuildPositions(b);
      if !placed {
        BaseValid();
        return false;
      }
      NothingDone(base.contents, b);
      for i := 0 to |b.lines|
        invariant Valid() && !base.broken && |positionRoots| == |b.positions| && PositionsDone(base.contents, positionRoots, b.positions)
        invariant |moveRoots| == MoveStart(b.lines, i) && MovesDone(base.contents, moveRoots, b, i)
        invariant LinesDone(base.contents, lineRoots, b) && |lineRoots| == i
      {
        LineAt(b, i);
        var made := BuildLine(b, i);
        if !made {
          BaseValid();
          return false;
        }
      }
      ok := true;
      BaseValid();
    }

    lemma BaseValid()
      requires Valid()
      ensures base.Valid() && !base.misused && (base.broken ==> Exceeds(base.universe, base.maximumRequests, base.maximumOperands))
      ensures !base.broken ==> Ordered(base.contents) && Written("number") in Meanings(base.contents)
    {
      if !base.broken {
        TagMeans(base.contents, base.stringIndexes, numberTag);
      }
      hide AtomsOk, Tiled, Distinct, StringsOk, NumbersOk, RecordsOk, PiecesOk, SquaresOk, PositionsOk, MovesOk, Ordered;
    }
  }

  lemma NumberIsMeant(contents: seq<Content>, tag: Option<nat>, value: nat, universe: set<Term>)
    requires tag.Some? && Denotes(contents, tag.value, Written("number"))
    requires Term.Text(Decimal(value)) in universe && NumberTerm(value) in universe
    ensures NumberMeant(contents, tag, value, universe)
  {
  }

  lemma RecordIsMeant(contents: seq<Content>, results: seq<Option<nat>>, terms: seq<Term>, key: seq<nat>, universe: set<Term>)
    requires Ordered(contents) && AllDenote(contents, results, terms) && |terms| >= 2 && Term.Node(terms) in universe
    requires |key| == |results| && forall j | 0 <= j < |key| :: results[j] == Some(key[j])
    ensures Meant(contents, key, universe)
  {
    assert NodeTerm(contents, key).children == terms;
  }

  // ----- what has been built -----

  ghost predicate PositionsDone(contents: seq<Content>, roots: seq<nat>, positions: seq<Position>) {
    |roots| <= |positions| && forall k | 0 <= k < |roots| :: Denotes(contents, roots[k], PositionTerm(KeyOf(positions[k])))
  }

  /** The keys of the first positions of line i, and its first moves with their pieces. */
  ghost function LineKeys(b: Batch, i: nat, n: nat): (keys: seq<Key>)
    requires i < |b.lines| && LineInside(b, i) && n <= b.lines[i].moveCount
    ensures |keys| == n + 1 && forall k | 0 <= k <= n :: keys[k] == KeyOf(b.positions[b.lines[i].firstPosition + k])
  {
    seq(n + 1, k requires 0 <= k <= n => KeyOf(b.positions[b.lines[i].firstPosition + k]))
  }

  ghost function ActionAt(b: Batch, i: nat, ply: nat): Action
    requires i < |b.lines| && LineInside(b, i) && ply < b.lines[i].moveCount
  {
    var move := b.moves[b.lines[i].firstMove + ply];
    Action(move, if move.from < 64 then b.positions[b.lines[i].firstPosition + ply].pieces[move.from] else 0)
  }

  ghost function LineActions(b: Batch, i: nat, n: nat): (actions: seq<Action>)
    requires i < |b.lines| && LineInside(b, i) && n <= b.lines[i].moveCount
    ensures |actions| == n && forall ply | 0 <= ply < n :: actions[ply] == ActionAt(b, i, ply)
  {
    seq(n, ply requires 0 <= ply < n => ActionAt(b, i, ply))
  }

  ghost predicate PliesDone(contents: seq<Content>, roots: seq<nat>, b: Batch, i: nat)
    requires i < |b.lines| && LineInside(b, i)
  {
    |roots| <= b.lines[i].moveCount && forall ply | 0 <= ply < |roots| :: Denotes(contents, roots[ply], MoveTerm(ActionAt(b, i, ply)))
  }

  /** The moves of the first n lines. */
  ghost predicate MovesDone(contents: seq<Content>, roots: seq<nat>, b: Batch, n: nat) {
    n <= |b.lines| && forall i | 0 <= i < n ::
      && LineInside(b, i) && b.lines[i].firstMove + b.lines[i].moveCount <= |roots|
      && PliesDone(contents, roots[b.lines[i].firstMove..b.lines[i].firstMove + b.lines[i].moveCount], b, i)
  }

  ghost predicate LineDone(contents: seq<Content>, root: nat, b: Batch, i: nat)
    requires i < |b.lines|
  {
    LineInside(b, i)
    && Denotes(contents, root, Term.Node(LineParts(LineKeys(b, i, b.lines[i].moveCount), LineActions(b, i, b.lines[i].moveCount))))
  }

  ghost predicate LinesDone(contents: seq<Content>, roots: seq<nat>, b: Batch) {
    |roots| <= |b.lines| && forall i | 0 <= i < |roots| :: LineDone(contents, roots[i], b, i)
  }

  ghost function LineTerm(b: Batch, i: nat): Term
    requires i < |b.lines| && LineInside(b, i)
  {
    Term.Node(LineParts(LineKeys(b, i, b.lines[i].moveCount), LineActions(b, i, b.lines[i].moveCount)))
  }

  /** What the roots of a plan stand for, and the tag of numerals. */
  ghost function Wanted(b: Batch): set<Term> {
    {Written("number")} + WantedPositions(b) + WantedMoves(b) + WantedLines(b)
  }

  ghost function WantedPositions(b: Batch): set<Term> {
    set k | 0 <= k < |b.positions| :: PositionTerm(KeyOf(b.positions[k]))
  }

  ghost function WantedMoves(b: Batch): set<Term> {
    set i, ply | 0 <= i < |b.lines| && LineInside(b, i) && 0 <= ply < b.lines[i].moveCount :: MoveTerm(ActionAt(b, i, ply))
  }

  ghost function WantedLines(b: Batch): set<Term> {
    set i | 0 <= i < |b.lines| && LineInside(b, i) :: LineTerm(b, i)
  }

  /** The distinct terms a plan for the batch has to request. */
  ghost function Terms(b: Batch): set<Term> {
    AllSubterms(Wanted(b))
  }

  lemma PositionWanted(b: Batch, k: nat)
    requires k < |b.positions|
    ensures PositionTerm(KeyOf(b.positions[k])) in Wanted(b)
  {
    hide PositionTerm, WantedMoves, WantedLines;
  }

  lemma MoveWanted(b: Batch, i: nat, ply: nat)
    requires i < |b.lines| && LineInside(b, i) && ply < b.lines[i].moveCount
    ensures MoveTerm(ActionAt(b, i, ply)) in Wanted(b)
  {
    hide MoveTerm, WantedPositions, WantedLines;
  }

  lemma LineWanted(b: Batch, i: nat)
    requires i < |b.lines| && LineInside(b, i)
    ensures LineTerm(b, i) in Wanted(b)
  {
    hide LineTerm, WantedPositions, WantedMoves;
  }

  /** Every position, move and line has a root that stands for it. */
  ghost predicate Built(contents: seq<Content>, positionRoots: seq<nat>, moveRoots: seq<nat>, lineRoots: seq<nat>, b: Batch) {
    && |positionRoots| == |b.positions| && PositionsDone(contents, positionRoots, b.positions)
    && |moveRoots| == MoveStart(b.lines, |b.lines|) && MovesDone(contents, moveRoots, b, |b.lines|)
    && |lineRoots| == |b.lines| && LinesDone(contents, lineRoots, b)
  }

  lemma PositionKeyOk(p: Position)
    requires PositionOk(p)
    ensures KeyOk(KeyOf(p))
  {
    hide Tally, HomesOk, EnPassantOk;
    forall square | 0 <= square < 64
      ensures PieceCode(p.pieces[square])
    {
      assert SquareOk(p.pieces, square);
    }
  }

  lemma PositionsNext(c0: seq<Content>, b0: bool, contents: seq<Content>, broken: bool, roots: seq<nat>, positions: seq<Position>, r: Option<nat>)
    requires (!b0 ==> PositionsDone(c0, roots, positions)) && |roots| < |positions| && r.Some?
    requires Made(c0, b0, contents, broken, r, PositionTerm(KeyOf(positions[|roots|]))) && (b0 ==> roots == [])
    ensures !broken ==> PositionsDone(contents, roots + [r.value], positions)
  {
    hide Denotes, Ordered, PositionTerm;
    if !broken {
      forall k | 0 <= k < |roots|
        ensures Denotes(contents, roots[k], PositionTerm(KeyOf(positions[k])))
      {
        StillDenotes(c0, contents, roots[k], PositionTerm(KeyOf(positions[k])));
      }
    }
  }

  lemma LineAt(b: Batch, i: nat)
    requires BatchOk(b) && i < |b.lines|
    ensures LineInside(b, i) && b.lines[i].firstMove == MoveStart(b.lines, i)
    ensures MoveStart(b.lines, i + 1) == MoveStart(b.lines, i) + b.lines[i].moveCount
    ensures forall ply | 0 <= ply < b.lines[i].moveCount :: ActionOk(ActionAt(b, i, ply))
  {
    hide PositionOk, EnPassantOk, CastleOk, PassingOk, PromotionOk, Placed, RightsAfter, TargetOk;
    assert LineInside(b, i) && StepsOk(b, i) && RangeOk(b, i);
    var line := b.lines[i];
    forall ply | 0 <= ply < line.moveCount
      ensures ActionOk(ActionAt(b, i, ply))
    {
      assert PlyOk(b, i, ply);
      var p := b.positions[line.firstPosition + ply];
      assert PositionOk(p);
      PositionKeyOk(p);
    }
  }

  lemma ActionIs(b: Batch, i: nat, ply: nat)
    requires BatchOk(b) && i < |b.lines| && LineInside(b, i) && ply < b.lines[i].moveCount
    ensures ActionOk(ActionAt(b, i, ply)) && b.moves[b.lines[i].firstMove + ply].from < 64
  {
    hide BatchOk, PieceCode;
    LineAt(b, i);
    assert ActionOk(ActionAt(b, i, ply));
  }

  lemma RootHeld(c0: seq<Content>, contents: seq<Content>, broken: bool, roots: seq<nat>, b: Batch, k: nat)
    requires PositionsDone(c0, roots, b.positions) && Grown(c0, false, contents, broken) && k < |roots|
    ensures Held(contents, broken, Some(roots[k]), PositionTerm(KeyOf(b.positions[k])))
  {
    hide Denotes, Ordered, PositionTerm;
    if !broken {
      StillDenotes(c0, contents, roots[k], PositionTerm(KeyOf(b.positions[k])));
    }
  }

  /** Adding a result that exists already. */
  lemma CollectHeld(c0: seq<Content>, b0: bool, contents: seq<Content>, broken: bool, results: seq<Option<nat>>, terms: seq<Term>, r: Option<nat>, term: Term)
    requires Collected(c0, b0, contents, broken, results, terms) && Held(contents, broken, r, term) && r.Some?
    ensures Collected(c0, b0, contents, broken, results + [r], terms + [term])
  {
    hide Denotes, Ordered;
    assert forall x | x in results :: x in results + [r];
  }

  lemma NothingDone(contents: seq<Content>, b: Batch)
    ensures MovesDone(contents, [], b, 0) && LinesDone(contents, [], b) && MoveStart(b.lines, 0) == 0
  {
  }

  lemma LineStart(b: Batch, i: nat)
    requires i < |b.lines| && LineInside(b, i)
    ensures LineParts(LineKeys(b, i, 0), LineActions(b, i, 0)) == [Written("Chess_Line")] + [PositionTerm(KeyOf(b.positions[b.lines[i].firstPosition]))]
  {
    hide PositionTerm, Written;
    assert LineKeys(b, i, 0)[0] == KeyOf(b.positions[b.lines[i].firstPosition + 0]);
  }

  lemma LinePartsNext(b: Batch, i: nat, ply: nat)
    requires i < |b.lines| && LineInside(b, i) && ply < b.lines[i].moveCount
    ensures LineParts(LineKeys(b, i, ply + 1), LineActions(b, i, ply + 1)) ==
      LineParts(LineKeys(b, i, ply), LineActions(b, i, ply)) + [MoveTerm(ActionAt(b, i, ply))] + [PositionTerm(KeyOf(b.positions[b.lines[i].firstPosition + (ply + 1)]))]
  {
    hide PositionTerm, MoveTerm, Written;
    var keys, actions := LineKeys(b, i, ply + 1), LineActions(b, i, ply + 1);
    assert keys[..ply + 1] == LineKeys(b, i, ply) && actions[..ply] == LineActions(b, i, ply);
    assert keys[ply + 1] == KeyOf(b.positions[b.lines[i].firstPosition + (ply + 1)]) && actions[ply] == ActionAt(b, i, ply);
    var parts := LineParts(LineKeys(b, i, ply), LineActions(b, i, ply));
    assert [MoveTerm(actions[ply]), PositionTerm(keys[ply + 1])] == [MoveTerm(actions[ply])] + [PositionTerm(keys[ply + 1])];
    assert parts + ([MoveTerm(actions[ply])] + [PositionTerm(keys[ply + 1])]) == parts + [MoveTerm(actions[ply])] + [PositionTerm(keys[ply + 1])];
  }

  lemma LineStarted(c0: seq<Content>, contents: seq<Content>, broken: bool, tag: Option<nat>, roots: seq<nat>, b: Batch, i: nat)
    requires i < |b.lines| && LineInside(b, i) && PositionsDone(c0, roots, b.positions) && |roots| == |b.positions|
    requires Made(c0, false, contents, broken, tag, Written("Chess_Line"))
    ensures Collected(c0, false, contents, broken, [tag, Some(roots[b.lines[i].firstPosition])], LineParts(LineKeys(b, i, 0), LineActions(b, i, 0)))
  {
    hide PositionTerm, Made, PositionsDone, Held, Collected, Parts, Written, LineParts, Grown;
    var k := b.lines[i].firstPosition;
    CollectFirst(c0, false, contents, broken, tag, Written("Chess_Line"));
    MadeHeld(c0, false, contents, broken, tag, Written("Chess_Line"));
    RootHeld(c0, contents, broken, roots, b, k);
    CollectHeld(c0, false, contents, broken, [tag], [Written("Chess_Line")], Some(roots[k]), PositionTerm(KeyOf(b.positions[k])));
    assert [tag] + [Some(roots[k])] == [tag, Some(roots[k])];
    LineStart(b, i);
  }

  lemma LineNext(c0: seq<Content>, c2: seq<Content>, b2: bool, c3: seq<Content>, b3: bool, results: seq<Option<nat>>, roots: seq<nat>, r: Option<nat>, b: Batch, i: nat, ply: nat)
    requires i < |b.lines| && LineInside(b, i) && ply < b.lines[i].moveCount
    requires Collected(c0, false, c2, b2, results, LineParts(LineKeys(b, i, ply), LineActions(b, i, ply)))
    requires Made(c2, b2, c3, b3, r, MoveTerm(ActionAt(b, i, ply)))
    requires PositionsDone(c0, roots, b.positions) && |roots| == |b.positions|
    ensures Collected(c0, false, c3, b3, results + [r, Some(roots[b.lines[i].firstPosition + (ply + 1)])], LineParts(LineKeys(b, i, ply + 1), LineActions(b, i, ply + 1)))
  {
    hide PositionTerm, MoveTerm, Collected, Made, PositionsDone, Held, Grown, Parts;
    var parts, k := LineParts(LineKeys(b, i, ply), LineActions(b, i, ply)), b.lines[i].firstPosition + (ply + 1);
    CollectNext(c0, false, c2, b2, c3, b3, results, parts, r, MoveTerm(ActionAt(b, i, ply)));
    CollectedGrows(c0, false, c3, b3, results + [r], parts + [MoveTerm(ActionAt(b, i, ply))]);
    RootHeld(c0, c3, b3, roots, b, k);
    CollectHeld(c0, false, c3, b3, results + [r], parts + [MoveTerm(ActionAt(b, i, ply))], Some(roots[k]), PositionTerm(KeyOf(b.positions[k])));
    LinePartsNext(b, i, ply);
    assert results + [r] + [Some(roots[k])] == results + [r, Some(roots[k])];
  }

  lemma PliesNext(c2: seq<Content>, b2: bool, c3: seq<Content>, b3: bool, roots: seq<nat>, b: Batch, i: nat, ply: nat, r: Option<nat>)
    requires i < |b.lines| && LineInside(b, i) && ply < b.lines[i].moveCount && |roots| == ply
    requires (!b2 ==> PliesDone(c2, roots, b, i)) && Made(c2, b2, c3, b3, r, MoveTerm(ActionAt(b, i, ply))) && r.Some?
    ensures !b3 ==> PliesDone(c3, roots + [r.value], b, i)
  {
    hide MoveTerm, Denotes, Ordered;
    if !b3 {
      PliesStay(c2, c3, roots, b, i);
    }
  }

  lemma PliesStay(contents: seq<Content>, after: seq<Content>, roots: seq<nat>, b: Batch, i: nat)
    requires i < |b.lines| && LineInside(b, i) && PliesDone(contents, roots, b, i) && contents <= after && Ordered(after)
    ensures PliesDone(after, roots, b, i)
  {
    hide MoveTerm, Denotes, Ordered;
    forall ply | 0 <= ply < |roots|
      ensures Denotes(after, roots[ply], MoveTerm(ActionAt(b, i, ply)))
    {
      StillDenotes(contents, after, roots[ply], MoveTerm(ActionAt(b, i, ply)));
    }
  }

  lemma LinePartsFirst(keys: seq<Key>, actions: seq<Action>)
    requires |keys| == |actions| + 1
    ensures LineParts(keys, actions)[0] == Written("Chess_Line")
    decreases |actions|
  {
    hide PositionTerm, MoveTerm, Written;
    if actions != [] {
      var n := |actions| - 1;
      LinePartsFirst(keys[..n + 1], actions[..n]);
    }
  }

  lemma MovesGrow(contents: seq<Content>, after: seq<Content>, roots: seq<nat>, more: seq<nat>, b: Batch, i: nat)
    requires MovesDone(contents, roots, b, i) && contents <= after && Ordered(after)
    requires i < |b.lines| && LineInside(b, i) && |more| == b.lines[i].moveCount && |roots| == b.lines[i].firstMove
    requires PliesDone(after, more, b, i)
    ensures MovesDone(after, roots + more, b, i + 1)
  {
    hide PliesDone, Ordered;
    forall j | 0 <= j < i + 1
      ensures LineInside(b, j) && b.lines[j].firstMove + b.lines[j].moveCount <= |roots + more|
      ensures PliesDone(after, (roots + more)[b.lines[j].firstMove..b.lines[j].firstMove + b.lines[j].moveCount], b, j)
    {
      if j < i {
        var first, n := b.lines[j].firstMove, b.lines[j].moveCount;
        PliesStay(contents, after, roots[first..first + n], b, j);
        assert (roots + more)[first..first + n] == roots[first..first + n];
      } else {
        assert (roots + more)[|roots|..|roots| + |more|] == more;
      }
    }
  }

  lemma LinesGrow(contents: seq<Content>, after: seq<Content>, roots: seq<nat>, root: nat, b: Batch)
    requires LinesDone(contents, roots, b) && contents <= after && Ordered(after) && |roots| < |b.lines| && LineDone(after, root, b, |roots|)
    ensures LinesDone(after, roots + [root], b)
  {
    hide Denotes, Ordered, LineParts;
    forall i | 0 <= i < |roots|
      ensures LineDone(after, roots[i], b, i)
    {
      assert LineDone(contents, roots[i], b, i);
      StillDenotes(contents, after, roots[i], Term.Node(LineParts(LineKeys(b, i, b.lines[i].moveCount), LineActions(b, i, b.lines[i].moveCount))));
    }
  }

  lemma PositionsStay(contents: seq<Content>, after: seq<Content>, roots: seq<nat>, positions: seq<Position>)
    requires PositionsDone(contents, roots, positions) && contents <= after && Ordered(after)
    ensures PositionsDone(after, roots, positions)
  {
    hide Denotes, Ordered, PositionTerm;
    forall k | 0 <= k < |roots|
      ensures Denotes(after, roots[k], PositionTerm(KeyOf(positions[k])))
    {
      StillDenotes(contents, after, roots[k], PositionTerm(KeyOf(positions[k])));
    }
  }

  lemma LineFinished(c0: seq<Content>, c4: seq<Content>, c5: seq<Content>, positionRoots: seq<nat>, moves0: seq<nat>, more: seq<nat>, lines0: seq<nat>, r: Option<nat>, b: Batch, i: nat)
    requires i < |b.lines| && LineInside(b, i) && b.lines[i].firstMove == |moves0| && |lines0| == i
    requires Grown(c0, false, c4, false) && PositionsDone(c0, positionRoots, b.positions) && MovesDone(c0, moves0, b, i) && LinesDone(c0, lines0, b)
    requires PliesDone(c4, more, b, i) && |more| == b.lines[i].moveCount
    requires Made(c4, false, c5, false, r, Term.Node(LineParts(LineKeys(b, i, b.lines[i].moveCount), LineActions(b, i, b.lines[i].moveCount))))
    ensures PositionsDone(c5, positionRoots, b.positions) && MovesDone(c5, moves0 + more, b, i + 1)
    ensures r.Some? && LinesDone(c5, lines0 + [r.value], b)
  {
    hide Denotes, Ordered, LineParts, PositionsDone, MovesDone, LinesDone, PliesDone;
    PositionsStay(c0, c5, positionRoots, b.positions);
    PliesStay(c4, c5, more, b, i);
    MovesGrow(c0, c5, moves0, more, b, i);
    LinesGrow(c0, c5, lines0, r.value, b);
  }

  lemma MadeExactly(contents: seq<Content>, broken: bool, after: seq<Content>, afterBroken: bool, r: Option<nat>, term: Term)
    requires Made(contents, broken, after, afterBroken, r, term)
    ensures afterBroken <==> broken || r.None?
  {
  }

  lemma KeyTarget(key: Key)
    requires KeyOk(key)
    ensures key.enPassant <= NO_SQUARE
  {
  }

  lemma RightsFirst(rights: nat)
    ensures RightsParts(rights)[0] == Written("castling-rights")
  {
  }

  lemma CollectedGrows(c0: seq<Content>, b0: bool, contents: seq<Content>, broken: bool, results: seq<Option<nat>>, terms: seq<Term>)
    requires Collected(c0, b0, contents, broken, results, terms)
    ensures Parts(contents, broken, results, terms) && Grown(c0, b0, contents, broken) && (broken <==> b0 || None in results)
  {
    hide Parts, Grown;
  }

  lemma MadeLater(c0: seq<Content>, b0: bool, c1: seq<Content>, b1: bool, after: seq<Content>, afterBroken: bool, r: Option<nat>, term: Term)
    requires Grown(c0, b0, c1, b1) && Made(c1, b1, after, afterBroken, r, term) && (b1 && !b0 ==> r.None?)
    ensures Made(c0, b0, after, afterBroken, r, term)
  {
    hide Denotes, Ordered;
  }

  function BitUnit(bit: nat): nat {
    if bit == 0 then 1 else 2 * BitUnit(bit - 1)
  }

  function Values(children: seq<Option<nat>>): (key: seq<nat>)
    requires None !in children
    ensures |key| == |children| && forall j | 0 <= j < |key| :: children[j] == Some(key[j])
  {
    if children == [] then []
    else
      assert children[|children| - 1] in children;
      Values(children[..|children| - 1]) + [children[|children| - 1].value]
  }

  lemma NumberWord()
    ensures Encodes(Word("number"), Word("number")) && |Word("number")| == 6
  {
    Ascii(Word("number"));
  }

  lemma FreshMemos(contents: seq<Content>, strings: map<seq<Byte>, nat>, tag: nat, pieces: seq<Option<nat>>, squares: seq<Option<nat>>)
    requires forall i | 0 <= i < |contents| :: contents[i].Letters?
    requires (forall p | 0 <= p < |pieces| :: pieces[p].None?) && (forall s | 0 <= s < |squares| :: squares[s].None?)
    ensures NumbersOk(map[], strings, contents, tag) && RecordsOk(map[], contents, tag)
    ensures PiecesOk(pieces, contents) && SquaresOk(squares, contents) && PositionsOk(map[], contents) && MovesOk(map[], contents)
  {
    hide Denotes, Decimal;
  }

  lemma NumberMeans(contents: seq<Content>, strings: map<seq<Byte>, nat>, numbers: map<nat, nat>, tag: Option<nat>, value: nat)
    requires TagOk(tag, strings) && StringsOk(strings, contents) && Ordered(contents)
    requires NumbersOk(numbers, strings, contents, tag.value) && value in numbers
    ensures Denotes(contents, numbers[value], NumberTerm(value))
  {
    hide Decimal, StringsOk;
    assert NumberAt(numbers[value], value, strings, contents, tag.value);
    TagMeans(contents, strings, tag);
    StringMeans(contents, strings, Decimal(value));
    var k := [tag.value, strings[Decimal(value)]];
    NodeMeans(contents, numbers[value], [Some(k[0]), Some(k[1])], [Written("number"), Term.Text(Decimal(value))], k);
  }

  lemma RecordMeans(records: map<seq<nat>, nat>, contents: seq<Content>, tag: nat, key: seq<nat>, children: seq<Option<nat>>, terms: seq<Term>)
    requires RecordsOk(records, contents, tag) && key in records && Ordered(contents) && AllDenote(contents, children, terms)
    requires |key| == |children| && forall j | 0 <= j < |key| :: children[j] == Some(key[j])
    ensures Denotes(contents, records[key], Term.Node(terms))
  {
    assert RecordAt(records[key], key, contents);
    NodeMeans(contents, records[key], children, terms, key);
  }

  lemma AppendMeans(contents: seq<Content>, after: seq<Content>, children: seq<Option<nat>>, terms: seq<Term>, key: seq<nat>)
    requires Ordered(after) && after == contents + [Children(key)] && AllDenote(contents, children, terms)
    requires |key| == |children| && forall j | 0 <= j < |key| :: children[j] == Some(key[j])
    ensures Denotes(after, |contents|, Term.Node(terms))
  {
    hide Denotes, Ordered;
    forall i | 0 <= i < |children|
      ensures Denotes(after, children[i].value, terms[i])
    {
      StillDenotes(contents, after, children[i].value, terms[i]);
    }
    NodeMeans(after, |contents|, children, terms, key);
  }

  lemma MadeHeld(contents: seq<Content>, broken: bool, after: seq<Content>, afterBroken: bool, r: Option<nat>, term: Term)
    requires Made(contents, broken, after, afterBroken, r, term)
    ensures Held(after, afterBroken, r, term) && Grown(contents, broken, after, afterBroken)
  {
    hide Denotes, Ordered;
  }

  lemma MadeCached(contents: seq<Content>, broken: bool, r: Option<nat>, term: Term)
    requires r.Some? && (!broken ==> Denotes(contents, r.value, term))
    ensures Made(contents, broken, contents, broken, r, term)
  {
  }

  lemma PartsStart(contents: seq<Content>, broken: bool, after: seq<Content>, afterBroken: bool, r: Option<nat>, term: Term)
    requires Made(contents, broken, after, afterBroken, r, term)
    ensures Parts(after, afterBroken, [r], [term])
  {
    hide Denotes, Ordered;
  }

  // ----- what the finished plan means -----

  lemma SameRoot(contents: seq<Content>, i: nat, j: nat, t: Term, u: Term)
    requires Distinct(contents) && Denotes(contents, i, t) && Denotes(contents, j, u)
    ensures i == j <==> t == u
  {
    hide Distinct;
    if t == u {
      MeaningInjective(contents, i, j);
    }
  }

  /** Board, side, rights and target are the same. */
  ghost predicate SamePosition(p: Position, q: Position) {
    p.pieces == q.pieces && p.side == q.side && p.rights == q.rights && p.enPassant == q.enPassant
  }

  /** Two positions have the same root exactly when they are equal. */
  lemma PositionRoots(contents: seq<Content>, positionRoots: seq<nat>, moveRoots: seq<nat>, lineRoots: seq<nat>, b: Batch, i: nat, j: nat)
    requires BatchOk(b) && Distinct(contents) && Built(contents, positionRoots, moveRoots, lineRoots, b)
    requires i < |b.positions| && j < |b.positions|
    ensures positionRoots[i] == positionRoots[j] <==> SamePosition(b.positions[i], b.positions[j])
  {
    hide PositionTerm, PositionOk, Distinct, Denotes, KeyOk, MovesDone, LinesDone, Partitioned, StepsOk;
    PositionKeyOk(b.positions[i]);
    PositionKeyOk(b.positions[j]);
    SameRoot(contents, positionRoots[i], positionRoots[j], PositionTerm(KeyOf(b.positions[i])), PositionTerm(KeyOf(b.positions[j])));
    if PositionTerm(KeyOf(b.positions[i])) == PositionTerm(KeyOf(b.positions[j])) {
      PositionTermInjective(KeyOf(b.positions[i]), KeyOf(b.positions[j]));
    }
  }

  lemma MoveRootDenotes(contents: seq<Content>, moveRoots: seq<nat>, b: Batch, i: nat, ply: nat)
    requires MovesDone(contents, moveRoots, b, |b.lines|) && i < |b.lines|
    requires LineInside(b, i) && ply < b.lines[i].moveCount
    ensures b.lines[i].firstMove + ply < |moveRoots| && Denotes(contents, moveRoots[b.lines[i].firstMove + ply], MoveTerm(ActionAt(b, i, ply)))
  {
    hide MoveTerm, Denotes;
    var first, n := b.lines[i].firstMove, b.lines[i].moveCount;
    assert PliesDone(contents, moveRoots[first..first + n], b, i);
    assert moveRoots[first..first + n][ply] == moveRoots[first + ply];
  }

  /** Two moves have the same root exactly when they and the moving pieces are equal. */
  lemma MoveRoots(contents: seq<Content>, positionRoots: seq<nat>, moveRoots: seq<nat>, lineRoots: seq<nat>, b: Batch, i: nat, ply: nat, j: nat, other: nat)
    requires BatchOk(b) && Distinct(contents) && Built(contents, positionRoots, moveRoots, lineRoots, b)
    requires i < |b.lines| && j < |b.lines| && LineInside(b, i) && LineInside(b, j) && ply < b.lines[i].moveCount && other < b.lines[j].moveCount
    ensures b.lines[i].firstMove + ply < |moveRoots| && b.lines[j].firstMove + other < |moveRoots|
    ensures var first, second := b.lines[i], b.lines[j];
      var move, next := b.moves[first.firstMove + ply], b.moves[second.firstMove + other];
      && move.from < 64 && next.from < 64
      && (moveRoots[first.firstMove + ply] == moveRoots[second.firstMove + other] <==>
            move == next && b.positions[first.firstPosition + ply].pieces[move.from] == b.positions[second.firstPosition + other].pieces[next.from])
  {
    hide MoveTerm, BatchOk, Distinct, Denotes, MovesDone, LinesDone, PositionsDone, ActionOk;
    MoveRootDenotes(contents, moveRoots, b, i, ply);
    MoveRootDenotes(contents, moveRoots, b, j, other);
    var a, c := ActionAt(b, i, ply), ActionAt(b, j, other);
    SameRoot(contents, moveRoots[b.lines[i].firstMove + ply], moveRoots[b.lines[j].firstMove + other], MoveTerm(a), MoveTerm(c));
    ActionIs(b, i, ply);
    ActionIs(b, j, other);
    if MoveTerm(a) == MoveTerm(c) {
      MoveTermInjective(a, c);
    }
  }

  lemma LineKeysOk(b: Batch, i: nat)
    requires BatchOk(b) && i < |b.lines| && LineInside(b, i)
    ensures forall k | 0 <= k <= b.lines[i].moveCount :: KeyOk(LineKeys(b, i, b.lines[i].moveCount)[k])
    ensures forall ply | 0 <= ply < b.lines[i].moveCount :: ActionOk(LineActions(b, i, b.lines[i].moveCount)[ply])
  {
    hide PositionOk, KeyOk, ActionOk, Partitioned, StepsOk;
    var n := b.lines[i].moveCount;
    forall k | 0 <= k <= n
      ensures KeyOk(LineKeys(b, i, n)[k])
    {
      PositionKeyOk(b.positions[b.lines[i].firstPosition + k]);
    }
    forall ply | 0 <= ply < n
      ensures ActionOk(LineActions(b, i, n)[ply])
    {
      ActionIs(b, i, ply);
    }
  }

  /** As many moves, the same positions and the same moves. */
  ghost predicate SameHistory(b: Batch, line: Range, other: Range)
    requires line.firstPosition + line.moveCount < |b.positions| && line.firstMove + line.moveCount <= |b.moves|
    requires other.firstPosition + other.moveCount < |b.positions| && other.firstMove + other.moveCount <= |b.moves|
  {
    && line.moveCount == other.moveCount
    && (forall k | 0 <= k <= line.moveCount :: SameAt(b, line, other, k))
    && b.moves[line.firstMove..line.firstMove + line.moveCount] == b.moves[other.firstMove..other.firstMove + other.moveCount]
  }

  ghost predicate SameAt(b: Batch, line: Range, other: Range, k: nat)
    requires line.firstPosition + k < |b.positions| && other.firstPosition + k < |b.positions|
  {
    SamePosition(b.positions[line.firstPosition + k], b.positions[other.firstPosition + k])
  }

  lemma SameHistoryKeys(b: Batch, i: nat, j: nat)
    requires i < |b.lines| && j < |b.lines| && LineInside(b, i) && LineInside(b, j)
    ensures SameHistory(b, b.lines[i], b.lines[j]) <==>
      LineKeys(b, i, b.lines[i].moveCount) == LineKeys(b, j, b.lines[j].moveCount) && LineActions(b, i, b.lines[i].moveCount) == LineActions(b, j, b.lines[j].moveCount)
  {
    var line, other := b.lines[i], b.lines[j];
    var n, m := line.moveCount, other.moveCount;
    var keys, otherKeys := LineKeys(b, i, n), LineKeys(b, j, m);
    var actions, otherActions := LineActions(b, i, n), LineActions(b, j, m);
    var moves, otherMoves := b.moves[line.firstMove..line.firstMove + n], b.moves[other.firstMove..other.firstMove + m];
    if SameHistory(b, line, other) {
      forall k | 0 <= k <= n
        ensures keys[k] == otherKeys[k]
      {
        assert SameAt(b, line, other, k);
      }
      assert keys == otherKeys;
      forall ply | 0 <= ply < n
        ensures actions[ply] == otherActions[ply]
      {
        assert moves[ply] == otherMoves[ply];
        assert SameAt(b, line, other, ply);
      }
      assert actions == otherActions;
    }
    if keys == otherKeys && actions == otherActions {
      forall k | 0 <= k <= n
        ensures SameAt(b, line, other, k)
      {
        assert keys[k] == otherKeys[k];
      }
      forall ply | 0 <= ply < n
        ensures moves[ply] == otherMoves[ply]
      {
        assert actions[ply] == otherActions[ply];
      }
      assert moves == otherMoves;
    }
  }

  /** Two lines have the same root exactly when they are the same history. */
  lemma LineRoots(contents: seq<Content>, positionRoots: seq<nat>, moveRoots: seq<nat>, lineRoots: seq<nat>, b: Batch, i: nat, j: nat)
    requires BatchOk(b) && Distinct(contents) && Built(contents, positionRoots, moveRoots, lineRoots, b)
    requires i < |b.lines| && j < |b.lines| && LineInside(b, i) && LineInside(b, j)
    ensures lineRoots[i] == lineRoots[j] <==> SameHistory(b, b.lines[i], b.lines[j])
  {
    SameHistoryKeys(b, i, j);
    hide BatchOk, Distinct, Denotes, MovesDone, PositionsDone, LineParts, KeyOk, ActionOk;
    var keys, actions := LineKeys(b, i, b.lines[i].moveCount), LineActions(b, i, b.lines[i].moveCount);
    var otherKeys, otherActions := LineKeys(b, j, b.lines[j].moveCount), LineActions(b, j, b.lines[j].moveCount);
    assert LineDone(contents, lineRoots[i], b, i) && LineDone(contents, lineRoots[j], b, j);
    SameRoot(contents, lineRoots[i], lineRoots[j], Term.Node(LineParts(keys, actions)), Term.Node(LineParts(otherKeys, otherActions)));
    if LineParts(keys, actions) == LineParts(otherKeys, otherActions) {
      LineKeysOk(b, i);
      LineKeysOk(b, j);
      LinePartsInjective(keys, actions, otherKeys, otherActions);
    }
  }

  /** A finished plan has requested every term it has to. */
  lemma AllRequested(contents: seq<Content>, positionRoots: seq<nat>, moveRoots: seq<nat>, lineRoots: seq<nat>, b: Batch)
    requires Ordered(contents) && Built(contents, positionRoots, moveRoots, lineRoots, b) && Written("number") in Meanings(contents)
    ensures Terms(b) <= Meanings(contents)
  {
    hide Built, Written, Ordered, Meanings, Wanted;
    forall t | t in Terms(b)
      ensures t in Meanings(contents)
    {
      var root :| root in Wanted(b) && t in Subterms(root);
      RootRequested(contents, positionRoots, moveRoots, lineRoots, b, root);
      PartRequested(contents, root, t);
    }
  }

  lemma PartRequested(contents: seq<Content>, root: Term, t: Term)
    requires Ordered(contents) && root in Meanings(contents) && t in Subterms(root)
    ensures t in Meanings(contents)
  {
    var i :| 0 <= i < |contents| && Meaning(contents, i) == root;
    SubtermsMeant(contents, i);
  }

  lemma RootRequested(contents: seq<Content>, positionRoots: seq<nat>, moveRoots: seq<nat>, lineRoots: seq<nat>, b: Batch, root: Term)
    requires Ordered(contents) && Built(contents, positionRoots, moveRoots, lineRoots, b) && Written("number") in Meanings(contents)
    requires root in Wanted(b)
    ensures root in Meanings(contents)
  {
    hide Written, Ordered, PositionTerm, MoveTerm, LineParts, Meaning, MovesDone;
    if root in WantedPositions(b) {
      var k :| 0 <= k < |b.positions| && root == PositionTerm(KeyOf(b.positions[k]));
      assert Denotes(contents, positionRoots[k], root);
    } else if root in WantedMoves(b) {
      var i, ply :| 0 <= i < |b.lines| && LineInside(b, i) && 0 <= ply < b.lines[i].moveCount && root == MoveTerm(ActionAt(b, i, ply));
      MoveRootDenotes(contents, moveRoots, b, i, ply);
    } else if root in WantedLines(b) {
      var i :| 0 <= i < |b.lines| && LineInside(b, i) && root == LineTerm(b, i);
      assert LineDone(contents, lineRoots[i], b, i);
    }
  }

  /** Validates a batch and builds its plan; every plan given out is whole and shared, has
      one request for each distinct term of the batch, and is refused exactly when those
      do not fit the limits. */
  method Create(b: Batch) returns (status: Status, plan: LineBuilder?)
    ensures status == Ok ==> plan != null && fresh(plan) && fresh(plan.base) && BatchOk(b)
    ensures status == Ok ==> Distinct(plan.base.contents) && Built(plan.base.contents, plan.positionRoots, plan.moveRoots, plan.lineRoots, b)
    ensures status == Ok ==> Tiled(plan.base.requests, plan.base.operands, plan.base.contents, plan.base.atomIndexes)
    ensures status == Ok ==> AtomsOk(plan.base.atoms, plan.base.atomIndexes)
    ensures status == Ok ==> Shared(plan.base.requests, plan.base.operands)
    ensures status == Ok ==> Ordered(plan.base.contents) && Meanings(plan.base.contents) == Terms(b)
    ensures status == Ok ==> |plan.base.requests| == |Terms(b)| && |plan.base.operands| == Weigh(Terms(b))
    ensures status != Ok ==> plan == null
    ensures BatchOk(b) ==> status == if Exceeds(Terms(b), b.maximumRequests, b.maximumOperands) then Limit else Ok
    ensures !BatchOk(b) ==> status == Verdict(b) != Ok
  {
    hide BatchOk, Built, AtomsOk, Tiled, Distinct, StringsOk, Ordered, Shared, Meanings, Terms, Wanted, Closed, Written;
    status := Validate(b);
    if status != Ok {
      return status, null;
    }
    BatchLimits(b);
    TermsClosed(b);
    var builder := new LineBuilder(b.maximumRequests, b.maximumOperands, Terms(b));
    var built := builder.Build(b);
    if !built {
      return Limit, null;
    }
    TiledIsShared(builder.base.requests, builder.base.operands, builder.base.contents, builder.base.atoms, builder.base.atomIndexes);
    TiledSize(builder.base.requests, builder.base.operands, builder.base.contents, builder.base.atomIndexes);
    MeaningsCount(builder.base.contents);
    AllRequested(builder.base.contents, builder.positionRoots, builder.moveRoots, builder.lineRoots, b);
    plan := builder;
  }

  lemma TermsClosed(b: Batch)
    ensures Closed(Terms(b)) && Wanted(b) <= Terms(b) && Written("number") in Terms(b)
  {
    hide Written, Closed, WantedPositions, WantedMoves, WantedLines, AllSubterms;
    AllSubtermsClosed(Wanted(b));
    assert Written("number") in Wanted(b);
  }

  lemma BatchLimits(b: Batch)
    requires BatchOk(b)
    ensures b.maximumRequests > 0
  {
    hide Partitioned, PositionOk, StepsOk;
  }
}
