/**
  The textual form of a sparse buffer type, over a list of tokens. A nested
  type or attribute is one token; the printer writes
  `<data=T[, sparsity_map=T][, storage_element_table=T][, is_weights][, C][, S]>`
  and the parser accepts the forms listed by its branches.
*/
module SparseBufferAsm {
  import opened Wrappers
  import opened SparseTypes
  import opened SparseBuffer

  datatype Attribute = CompressionAttr(compression: Compression) | SeAttribute(seAttr: SEAttr) | OtherAttr(code: int)

  datatype Token =
    | Less
    | Greater
    | Comma
    | Equal
    | Keyword(word: string)
    | TypeToken(buffer: Buffer)
    | AttrToken(attr: Attribute)

  /** Every parse failure is a diagnostic at the current token. */
  datatype ParseError = Syntax

  type Parsed<T> = Result<(T, seq<Token>), ParseError>

  const DataKeyword := Keyword("data")
  const SparsityMapKeyword := Keyword("sparsity_map")
  const SETKeyword := Keyword("storage_element_table")
  const WeightsKeyword := Keyword("is_weights")

  function PrintPart(keyword: Token, b: Option<Buffer>): seq<Token> {
    if b.Some? then [Comma, keyword, Equal, TypeToken(b.value)] else []
  }

  function FlagTokens(isWeights: bool): seq<Token> {
    if isWeights then [Comma, WeightsKeyword] else []
  }

  function CompressionTokens(c: Option<Compression>): seq<Token> {
    if c.Some? then [Comma, AttrToken(CompressionAttr(c.value))] else []
  }

  function SeAttrTokens(se: Option<SEAttr>): seq<Token> {
    if se.Some? then [Comma, AttrToken(SeAttribute(se.value))] else []
  }

  /** Everything printed after the last sub-buffer. */
  function TailTokens(isWeights: bool, c: Option<Compression>, se: Option<SEAttr>): seq<Token> {
    FlagTokens(isWeights) + CompressionTokens(c) + SeAttrTokens(se) + [Greater]
  }

  /** SparseBufferType::print */
  function Print(t: SparseBuffer): seq<Token> {
    [Less, DataKeyword, Equal, TypeToken(t.data)]
      + PrintPart(SparsityMapKeyword, t.sparsityMap)
      + PrintPart(SETKeyword, t.storageElementTable)
      + TailTokens(t.isWeights, t.sparsityCompression, t.seAttr)
  }

  // AsmParser primitives

  /** parseLess, parseEqual, parseComma, parseGreater, parseKeyword: the token or a syntax error. */
  function Expect(toks: seq<Token>, tok: Token): (r: Result<seq<Token>, ParseError>)
    ensures r.Ok? <==> toks != [] && toks[0] == tok
    ensures r.Ok? ==> toks == [tok] + r.value
  {
    if toks != [] && toks[0] == tok then Ok(toks[1..]) else Err(Syntax)
  }

  /** The optional variants test the next token without failing. */
  predicate NextIs(toks: seq<Token>, tok: Token) {
    toks != [] && toks[0] == tok
  }

  function ParseType(toks: seq<Token>): (r: Parsed<Buffer>)
    ensures r.Ok? <==> toks != [] && toks[0].TypeToken?
    ensures r.Ok? ==> toks == [TypeToken(r.value.0)] + r.value.1
  {
    if toks != [] && toks[0].TypeToken? then Ok((toks[0].buffer, toks[1..])) else Err(Syntax)
  }

  /** `keyword=type`: parseKeyword, parseEqual, then parseType. */
  function ParseNamedType(toks: seq<Token>, keyword: Token): (r: Parsed<Buffer>)
    ensures r.Ok? <==> |toks| >= 3 && toks[0] == keyword && toks[1] == Equal && toks[2].TypeToken?
    ensures r.Ok? ==> toks == [keyword, Equal, TypeToken(r.value.0)] + r.value.1
  {
    var toks :- Expect(toks, keyword);
    var toks :- Expect(toks, Equal);
    ParseType(toks)
  }

  /** parseAttribute into a SparsityCompressionAttr: any other attribute is an error. */
  function ParseCompression(toks: seq<Token>): (r: Parsed<Compression>)
    ensures r.Ok? <==> toks != [] && toks[0].AttrToken? && toks[0].attr.CompressionAttr?
    ensures r.Ok? ==> toks == [AttrToken(CompressionAttr(r.value.0))] + r.value.1
  {
    if toks != [] && toks[0].AttrToken? && toks[0].attr.CompressionAttr? then Ok((toks[0].attr.compression, toks[1..]))
    else Err(Syntax)
  }

  /** parseAttribute into a VPU::SEAttr. */
  function ParseSeAttr(toks: seq<Token>): (r: Parsed<SEAttr>)
    ensures r.Ok? <==> toks != [] && toks[0].AttrToken? && toks[0].attr.SeAttribute?
    ensures r.Ok? ==> toks == [AttrToken(SeAttribute(r.value.0))] + r.value.1
  {
    if toks != [] && toks[0].AttrToken? && toks[0].attr.SeAttribute? then Ok((toks[0].attr.seAttr, toks[1..]))
    else Err(Syntax)
  }

  /** After `is_weights`: an optional comma with a compression attribute, then `>`. */
  function ParseWeightsTail(data: Buffer, sparsityMap: Option<Buffer>, seTable: Option<Buffer>, toks: seq<Token>)
    : Parsed<SparseBuffer>
  {
    if NextIs(toks, Comma) then
      var c :- ParseCompression(toks[1..]);
      var rest :- Expect(c.1, Greater);
      Ok((SparseBuffer(data, sparsityMap, seTable, true, Some(c.0), None), rest))
    else
      var rest :- Expect(toks, Greater);
      Ok((SparseBuffer(data, sparsityMap, seTable, true, None, None), rest))
  }

  /** After the SET: `, is_weights ...`, `, S>` or `>`. */
  function ParseAfterSETable(data: Buffer, sparsityMap: Buffer, seTable: Buffer, toks: seq<Token>): Parsed<SparseBuffer> {
    if NextIs(toks, Comma) then
      var toks := toks[1..];
      if NextIs(toks, WeightsKeyword) then ParseWeightsTail(data, Some(sparsityMap), Some(seTable), toks[1..])
      else
        var se :- ParseSeAttr(toks);
        var rest :- Expect(se.1, Greater);
        Ok((SparseBuffer(data, Some(sparsityMap), Some(seTable), false, None, Some(se.0)), rest))
    else
      var rest :- Expect(toks, Greater);
      Ok((SparseBuffer(data, Some(sparsityMap), Some(seTable), false, None, None), rest))
  }

  /** After the sparsity map: `>`, `, is_weights ...` or `, storage_element_table=T ...`. */
  function ParseAfterSparsityMap(data: Buffer, sparsityMap: Buffer, toks: seq<Token>): Parsed<SparseBuffer> {
    if NextIs(toks, Greater) then Ok((SparseBuffer(data, Some(sparsityMap), None, false, None, None), toks[1..]))
    else
      var toks :- Expect(toks, Comma);
      if NextIs(toks, WeightsKeyword) then ParseWeightsTail(data, Some(sparsityMap), None, toks[1..])
      else
        var se :- ParseNamedType(toks, SETKeyword);
        ParseAfterSETable(data, sparsityMap, se.0, se.1)
  }

  /** After the data: `>`, `, is_weights ...` or `, sparsity_map=T ...`. */
  function ParseAfterData(data: Buffer, toks: seq<Token>): Parsed<SparseBuffer> {
    if NextIs(toks, Greater) then Ok((SparseBuffer(data, None, None, false, None, None), toks[1..]))
    else
      var toks :- Expect(toks, Comma);
      if NextIs(toks, WeightsKeyword) then ParseWeightsTail(data, None, None, toks[1..])
      else
        var sm :- ParseNamedType(toks, SparsityMapKeyword);
        ParseAfterSparsityMap(data, sm.0, sm.1)
  }

  /** SparseBufferType::parse: the type and the tokens after it. */
  function Parse(toks: seq<Token>): Parsed<SparseBuffer> {
    var toks :- Expect(toks, Less);
    var data :- ParseNamedType(toks, DataKeyword);
    ParseAfterData(data.0, data.1)
  }

  /** The presence patterns the parser has a branch for: a SET only after a sparsity map, compression
      only with is_weights, seAttr only after a SET and never with is_weights. */
  predicate Printable(t: SparseBuffer) {
    && (t.storageElementTable.Some? ==> t.sparsityMap.Some?)
    && (t.sparsityCompression.Some? ==> t.isWeights)
    && (t.seAttr.Some? ==> t.storageElementTable.Some? && !t.isWeights)
  }


  // Printing then parsing

  lemma Reassociate<T>(a: seq<T>, b: seq<T>, c: seq<T>)
    ensures a + b + c == a + (b + c)
  {
  }

  /** The shape of the tail tokens: what the parser looks at first. */
  lemma TailShape(w: bool, c: Option<Compression>, se: Option<SEAttr>, rest: seq<Token>)
    ensures w ==> TailTokens(w, c, se) + rest == [Comma, WeightsKeyword] + (CompressionTokens(c) + (SeAttrTokens(se) + ([Greater] + rest)))
    ensures !w ==> TailTokens(w, c, se) + rest == CompressionTokens(c) + (SeAttrTokens(se) + ([Greater] + rest))
  {
    var f, k, a := FlagTokens(w), CompressionTokens(c), SeAttrTokens(se);
    Reassociate(f + k + a, [Greater], rest);
    Reassociate(f + k, a, [Greater] + rest);
    Reassociate(f, k, a + ([Greater] + rest));
  }

  lemma WeightsTailRoundTrip(data: Buffer, sparsityMap: Option<Buffer>, seTable: Option<Buffer>,
                             c: Option<Compression>, se: Option<SEAttr>, rest: seq<Token>)
    ensures ParseWeightsTail(data, sparsityMap, seTable, CompressionTokens(c) + (SeAttrTokens(se) + ([Greater] + rest)))
            == if se.None? then Ok((SparseBuffer(data, sparsityMap, seTable, true, c, None), rest)) else Err(Syntax)
  {
    var toks := CompressionTokens(c) + (SeAttrTokens(se) + ([Greater] + rest));
    if c.Some? {
      assert toks[1..] == [AttrToken(CompressionAttr(c.value))] + (SeAttrTokens(se) + ([Greater] + rest));
      var after := toks[1..][1..];
      assert after == SeAttrTokens(se) + ([Greater] + rest);
      if se.Some? {
        assert after[0] == Comma;
      } else {
        assert after == [Greater] + rest;
      }
    } else if se.Some? {
      assert toks == [Comma, AttrToken(SeAttribute(se.value)), Greater] + rest;
    } else {
      assert toks == [Greater] + rest;
    }
  }

  /** What every level does on the tail when no sub-buffer follows: a weights tail after
      `is_weights`, otherwise `>` alone. */
  lemma NoWeightsTail(w: bool, c: Option<Compression>, se: Option<SEAttr>, rest: seq<Token>)
    requires !w
    ensures var toks := TailTokens(w, c, se) + rest;
            && (c.None? && se.None? <==> NextIs(toks, Greater))
            && (c.None? && se.None? ==> toks[1..] == rest)
            && ((c.Some? || se.Some?) ==> NextIs(toks, Comma) && toks[1..][0].AttrToken?)
            && (c.Some? ==> toks[1..][0] == AttrToken(CompressionAttr(c.value)))
            && (c.None? && se.Some? ==> toks[1..] == [AttrToken(SeAttribute(se.value)), Greater] + rest)
  {
    TailShape(w, c, se, rest);
    if c.None? && se.Some? {
      assert TailTokens(w, c, se) + rest == [Comma, AttrToken(SeAttribute(se.value)), Greater] + rest;
    }
  }

  lemma AfterSETableRoundTrip(data: Buffer, sparsityMap: Buffer, seTable: Buffer,
                              w: bool, c: Option<Compression>, se: Option<SEAttr>, rest: seq<Token>)
    ensures var t := SparseBuffer(data, Some(sparsityMap), Some(seTable), w, c, se);
            ParseAfterSETable(data, sparsityMap, seTable, TailTokens(w, c, se) + rest)
            == if Printable(t) then Ok((t, rest)) else Err(Syntax)
  {
    var toks := TailTokens(w, c, se) + rest;
    TailShape(w, c, se, rest);
    if w {
      assert toks[1..] == [WeightsKeyword] + (CompressionTokens(c) + (SeAttrTokens(se) + ([Greater] + rest)));
      WeightsTailRoundTrip(data, Some(sparsityMap), Some(seTable), c, se, rest);
    } else {
      NoWeightsTail(w, c, se, rest);
      if c.None? && se.Some? {
        assert toks[1..][1..] == [Greater] + rest;
      }
    }
  }

  lemma AfterSparsityMapRoundTrip(data: Buffer, sparsityMap: Buffer, seTable: Option<Buffer>,
                                  w: bool, c: Option<Compression>, se: Option<SEAttr>, rest: seq<Token>)
    ensures var t := SparseBuffer(data, Some(sparsityMap), seTable, w, c, se);
            ParseAfterSparsityMap(data, sparsityMap, PrintPart(SETKeyword, seTable) + (TailTokens(w, c, se) + rest))
            == if Printable(t) then Ok((t, rest)) else Err(Syntax)
  {
    var tail := TailTokens(w, c, se) + rest;
    var toks := PrintPart(SETKeyword, seTable) + tail;
    if seTable.Some? {
      assert toks == [Comma, SETKeyword, Equal, TypeToken(seTable.value)] + tail;
      assert toks[1..][1..][1..] == [TypeToken(seTable.value)] + tail;
      AfterSETableRoundTrip(data, sparsityMap, seTable.value, w, c, se, rest);
    } else {
      assert toks == tail;
      AfterSparsityMapTailRoundTrip(data, sparsityMap, w, c, se, rest);
    }
  }

  /** The sparsity map is the last printed sub-buffer. */
  lemma AfterSparsityMapTailRoundTrip(data: Buffer, sparsityMap: Buffer,
                                      w: bool, c: Option<Compression>, se: Option<SEAttr>, rest: seq<Token>)
    ensures var t := SparseBuffer(data, Some(sparsityMap), None, w, c, se);
            ParseAfterSparsityMap(data, sparsityMap, TailTokens(w, c, se) + rest)
            == if Printable(t) then Ok((t, rest)) else Err(Syntax)
  {
    var toks := TailTokens(w, c, se) + rest;
    TailShape(w, c, se, rest);
    if w {
      assert toks[1..] == [WeightsKeyword] + (CompressionTokens(c) + (SeAttrTokens(se) + ([Greater] + rest)));
      WeightsTailRoundTrip(data, Some(sparsityMap), None, c, se, rest);
    } else {
      NoWeightsTail(w, c, se, rest);
    }
  }

  lemma AfterDataRoundTrip(data: Buffer, sparsityMap: Option<Buffer>, seTable: Option<Buffer>,
                           w: bool, c: Option<Compression>, se: Option<SEAttr>, rest: seq<Token>)
    ensures var t := SparseBuffer(data, sparsityMap, seTable, w, c, se);
            ParseAfterData(data, PrintPart(SparsityMapKeyword, sparsityMap)
                                 + (PrintPart(SETKeyword, seTable) + (TailTokens(w, c, se) + rest)))
            == if Printable(t) then Ok((t, rest)) else Err(Syntax)
  {
    var afterMap := PrintPart(SETKeyword, seTable) + (TailTokens(w, c, se) + rest);
    var toks := PrintPart(SparsityMapKeyword, sparsityMap) + afterMap;
    if sparsityMap.Some? {
      assert toks == [Comma, SparsityMapKeyword, Equal, TypeToken(sparsityMap.value)] + afterMap;
      assert toks[1..][1..][1..] == [TypeToken(sparsityMap.value)] + afterMap;
      AfterSparsityMapRoundTrip(data, sparsityMap.value, seTable, w, c, se, rest);
    } else if seTable.Some? {
      assert toks[0] == Comma && toks[1] == SETKeyword;
    } else {
      assert toks == TailTokens(w, c, se) + rest;
      AfterDataTailRoundTrip(data, w, c, se, rest);
    }
  }

  /** The data is the only printed sub-buffer. */
  lemma AfterDataTailRoundTrip(data: Buffer, w: bool, c: Option<Compression>, se: Option<SEAttr>, rest: seq<Token>)
    ensures var t := SparseBuffer(data, None, None, w, c, se);
            ParseAfterData(data, TailTokens(w, c, se) + rest)
            == if Printable(t) then Ok((t, rest)) else Err(Syntax)
  {
    var toks := TailTokens(w, c, se) + rest;
    TailShape(w, c, se, rest);
    if w {
      assert toks[1..] == [WeightsKeyword] + (CompressionTokens(c) + (SeAttrTokens(se) + ([Greater] + rest)));
      WeightsTailRoundTrip(data, None, None, c, se, rest);
    } else {
      NoWeightsTail(w, c, se, rest);
    }
  }

  /** The printed form of `t` with `rest` after it, regrouped the way the parser reads it. */
  lemma PrintGrouping(t: SparseBuffer, rest: seq<Token>)
    ensures Print(t) + rest == [Less, DataKeyword, Equal, TypeToken(t.data)]
              + (PrintPart(SparsityMapKeyword, t.sparsityMap) + (PrintPart(SETKeyword, t.storageElementTable)
              + (TailTokens(t.isWeights, t.sparsityCompression, t.seAttr) + rest)))
  {
    var h := [Less, DataKeyword, Equal, TypeToken(t.data)];
    var a := PrintPart(SparsityMapKeyword, t.sparsityMap);
    var b := PrintPart(SETKeyword, t.storageElementTable);
    var c := TailTokens(t.isWeights, t.sparsityCompression, t.seAttr);
    Reassociate(h + a + b, c, rest);
    Reassociate(h + a, b, c + rest);
    Reassociate(h, a, b + (c + rest));
  }

  /** A printed type parses back to itself, leaving the following tokens, exactly when its presence
      pattern is one the parser has a branch for; any other printed form is a syntax error. */
  lemma ParsePrint(t: SparseBuffer, rest: seq<Token>)
    ensures Parse(Print(t) + rest) == if Printable(t) then Ok((t, rest)) else Err(Syntax)
  {
    PrintGrouping(t, rest);
    AfterDataRoundTrip(t.data, t.sparsityMap, t.storageElementTable, t.isWeights, t.sparsityCompression, t.seAttr, rest);
  }

  // Parsing then printing

  lemma WeightsTailCanonical(data: Buffer, sparsityMap: Option<Buffer>, seTable: Option<Buffer>, toks: seq<Token>)
    requires ParseWeightsTail(data, sparsityMap, seTable, toks).Ok?
    ensures var (t, rest) := ParseWeightsTail(data, sparsityMap, seTable, toks).value;
            && t == SparseBuffer(data, sparsityMap, seTable, true, t.sparsityCompression, None)
            && [Comma, WeightsKeyword] + toks == TailTokens(true, t.sparsityCompression, None) + rest
  {
    var (t, rest) := ParseWeightsTail(data, sparsityMap, seTable, toks).value;
    TailShape(true, t.sparsityCompression, None, rest);
    if NextIs(toks, Comma) {
      assert toks == [Comma, AttrToken(CompressionAttr(t.sparsityCompression.value)), Greater] + rest;
    } else {
      assert toks == [Greater] + rest;
    }
  }

  lemma AfterSETableCanonical(data: Buffer, sparsityMap: Buffer, seTable: Buffer, toks: seq<Token>)
    requires ParseAfterSETable(data, sparsityMap, seTable, toks).Ok?
    ensures var (t, rest) := ParseAfterSETable(data, sparsityMap, seTable, toks).value;
            && t.data == data && t.sparsityMap == Some(sparsityMap) && t.storageElementTable == Some(seTable)
            && Printable(t) && toks == TailTokens(t.isWeights, t.sparsityCompression, t.seAttr) + rest
  {
    var (t, rest) := ParseAfterSETable(data, sparsityMap, seTable, toks).value;
    TailShape(t.isWeights, t.sparsityCompression, t.seAttr, rest);
    if NextIs(toks, Comma) {
      if NextIs(toks[1..], WeightsKeyword) {
        WeightsTailCanonical(data, Some(sparsityMap), Some(seTable), toks[1..][1..]);
        assert toks == [Comma, WeightsKeyword] + toks[1..][1..];
      } else {
        assert toks == [Comma, AttrToken(SeAttribute(t.seAttr.value)), Greater] + rest;
      }
    } else {
      assert toks == [Greater] + rest;
    }
  }

  lemma AfterSparsityMapCanonical(data: Buffer, sparsityMap: Buffer, toks: seq<Token>)
    requires ParseAfterSparsityMap(data, sparsityMap, toks).Ok?
    ensures var (t, rest) := ParseAfterSparsityMap(data, sparsityMap, toks).value;
            && t.data == data && t.sparsityMap == Some(sparsityMap) && Printable(t)
            && toks == PrintPart(SETKeyword, t.storageElementTable) + (TailTokens(t.isWeights, t.sparsityCompression, t.seAttr) + rest)
  {
    var r := ParseAfterSparsityMap(data, sparsityMap, toks);
    if NextIs(toks, Greater) {
      TailShape(false, None, None, toks[1..]);
      assert toks == [Greater] + toks[1..];
    } else {
      var afterComma := toks[1..];
      assert toks == [Comma] + afterComma;
      if NextIs(afterComma, WeightsKeyword) {
        var afterFlag := afterComma[1..];
        assert r == ParseWeightsTail(data, Some(sparsityMap), None, afterFlag);
        WeightsTailCanonical(data, Some(sparsityMap), None, afterFlag);
        assert toks == [Comma, WeightsKeyword] + afterFlag;
      } else {
        var se := ParseNamedType(afterComma, SETKeyword).value;
        assert r == ParseAfterSETable(data, sparsityMap, se.0, se.1);
        AfterSETableCanonical(data, sparsityMap, se.0, se.1);
        assert toks == [Comma, SETKeyword, Equal, TypeToken(se.0)] + se.1;
      }
    }
  }

  lemma AfterDataCanonical(data: Buffer, toks: seq<Token>)
    requires ParseAfterData(data, toks).Ok?
    ensures var (t, rest) := ParseAfterData(data, toks).value;
            && t.data == data && Printable(t)
            && toks == PrintPart(SparsityMapKeyword, t.sparsityMap)
                       + (PrintPart(SETKeyword, t.storageElementTable) + (TailTokens(t.isWeights, t.sparsityCompression, t.seAttr) + rest))
  {
    var r := ParseAfterData(data, toks);
    if NextIs(toks, Greater) {
      TailShape(false, None, None, toks[1..]);
      assert toks == [Greater] + toks[1..];
    } else {
      var afterComma := toks[1..];
      assert toks == [Comma] + afterComma;
      if NextIs(afterComma, WeightsKeyword) {
        var afterFlag := afterComma[1..];
        assert r == ParseWeightsTail(data, None, None, afterFlag);
        WeightsTailCanonical(data, None, None, afterFlag);
        assert toks == [Comma, WeightsKeyword] + afterFlag;
      } else {
        var sm := ParseNamedType(afterComma, SparsityMapKeyword).value;
        assert r == ParseAfterSparsityMap(data, sm.0, sm.1);
        AfterSparsityMapCanonical(data, sm.0, sm.1);
        assert toks == [Comma, SparsityMapKeyword, Equal, TypeToken(sm.0)] + sm.1;
      }
    }
  }

  /** Whatever the parser accepts is a printable type followed by the unread tokens, and the tokens
      it consumed are exactly that type's printed form. */
  lemma ParseIsCanonical(toks: seq<Token>)
    requires Parse(toks).Ok?
    ensures var (t, rest) := Parse(toks).value;
            Printable(t) && toks == Print(t) + rest
  {
    var (t, rest) := Parse(toks).value;
    var data := ParseNamedType(toks[1..], DataKeyword).value;
    assert Parse(toks) == ParseAfterData(data.0, data.1);
    AfterDataCanonical(data.0, data.1);
    assert toks == [Less, DataKeyword, Equal, TypeToken(data.0)] + data.1;
    PrintGrouping(t, rest);
  }
}
