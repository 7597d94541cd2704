/** The token-limit table: a comma-separated list such as "10,20" becomes the
    table Token10 -> 10, Token20 -> 20, which resolves a client-supplied token
    to its override budget (0 for a token that is not listed). */
module Tokens {
  import opened GoText

  datatype TokenLimit = TokenLimit(name: string, limit: int)

  datatype TokenLimitList = TokenLimitList(list: map<string, TokenLimit>)
  {
    /** The listed limit, or Go's zero value 0 for an unlisted token. */
    function GetLimit(token: string): (limit: int)
      ensures token !in list ==> limit == 0
      ensures token in list ==> limit == list[token].limit
    {
      if token in list then list[token].limit else 0
    }

    /** The resolver entry point used by the rate limiter. */
    function LimitFor(token: string): (limit: int)
      ensures limit == GetLimit(token)
    {
      GetLimit(token)
    }
  }

  const TokenPrefix: string := "Token"

  /** The text of a piece once surrounding whitespace is trimmed. */
  function PieceText(piece: string): string {
    TrimSpace(piece)
  }

  /** A piece contributes an entry when its trimmed text is a valid integer. */
  predicate ValidPiece(piece: string) {
    PieceText(piece) != "" && Atoi(PieceText(piece)).Some?
  }

  /** The table key of a piece: the prefix followed by the trimmed text verbatim. */
  function TokenKey(piece: string): string {
    TokenPrefix + PieceText(piece)
  }

  /** The integer a valid piece stands for. */
  function PieceLimit(piece: string): int
    requires ValidPiece(piece)
  {
    Atoi(PieceText(piece)).value
  }

  /** The table built by inserting the pieces from first to last; a valid
      piece overwrites whatever an earlier piece stored under the same key. */
  function TableOf(pieces: seq<string>): map<string, TokenLimit>
  {
    if |pieces| == 0 then map[]
    else
      var table := TableOf(pieces[..|pieces| - 1]);
      var last := pieces[|pieces| - 1];
      if ValidPiece(last) then table[TokenKey(last) := TokenLimit(TokenKey(last), PieceLimit(last))]
      else table
  }

  /** What `NewTokenLimitList` produces for a given parameter. */
  function ParseTokenLimits(limitsParam: string): TokenLimitList {
    if TrimSpace(limitsParam) == "" then TokenLimitList(map[])
    else TokenLimitList(TableOf(Split(limitsParam)))
  }

  /** Builds the table by a loop over the comma-separated pieces, skipping blank
      pieces and pieces that are not integers. */
  method NewTokenLimitList(limitsParam: string) returns (limitList: TokenLimitList)
    ensures limitList == ParseTokenLimits(limitsParam)
  {
    var list: map<string, TokenLimit> := map[];
    if TrimSpace(limitsParam) == "" {
      return TokenLimitList(list);
    }
    var arr := Split(limitsParam);
    for i := 0 to |arr|
      invariant list == TableOf(arr[..i])
    {
      assert arr[..i + 1] == arr[..i] + [arr[i]];
      TableOfSnoc(arr[..i], arr[i]);
      var value := TrimSpace(arr[i]);
      if value == "" {
        continue;
      }
      var limite := Atoi(value);
      if limite.None? {
        continue;
      }
      var token := TokenPrefix + value;
      list := list[token := TokenLimit(token, limite.value)];
    }
    assert arr[..|arr|] == arr;
    return TokenLimitList(list);
  }

  /** Inserting one more piece. */
  lemma TableOfSnoc(pieces: seq<string>, piece: string)
    ensures TableOf(pieces + [piece]) ==
      if ValidPiece(piece) then TableOf(pieces)[TokenKey(piece) := TokenLimit(TokenKey(piece), PieceLimit(piece))]
      else TableOf(pieces)
  {
    assert (pieces + [piece])[..|pieces|] == pieces;
  }

  /** Distinct trimmed texts give distinct keys. */
  lemma KeyDeterminesText(a: string, b: string)
    requires TokenPrefix + a == TokenPrefix + b
    ensures a == b
  {
    assert a == (TokenPrefix + a)[|TokenPrefix|..];
    assert b == (TokenPrefix + b)[|TokenPrefix|..];
  }

  /** Every entry is named by its key, and the key is the prefix followed by
      integer text whose value is the entry's limit. */
  lemma {:induction false} TableEntryShape(pieces: seq<string>)
    ensures forall k :: k in TableOf(pieces) ==>
      && TableOf(pieces)[k].name == k
      && |k| > |TokenPrefix| && k[..|TokenPrefix|] == TokenPrefix
      && Atoi(k[|TokenPrefix|..]) == Some(TableOf(pieces)[k].limit)
  {
    if |pieces| > 0 {
      TableEntryShape(pieces[..|pieces| - 1]);
      var last := pieces[|pieces| - 1];
      if ValidPiece(last) {
        var key := TokenKey(last);
        assert key[..|TokenPrefix|] == TokenPrefix;
        assert key[|TokenPrefix|..] == PieceText(last);
      }
    }
  }

  /** Every key in the table comes from a valid piece. */
  lemma {:induction false} TableKeysFromPieces(pieces: seq<string>)
    ensures forall k :: k in TableOf(pieces) ==>
      exists i :: 0 <= i < |pieces| && ValidPiece(pieces[i]) && TokenKey(pieces[i]) == k
  {
    if |pieces| > 0 {
      var init := pieces[..|pieces| - 1];
      TableKeysFromPieces(init);
      forall k | k in TableOf(pieces)
        ensures exists i :: 0 <= i < |pieces| && ValidPiece(pieces[i]) && TokenKey(pieces[i]) == k
      {
        if k in TableOf(init) {
          var i :| 0 <= i < |init| && ValidPiece(init[i]) && TokenKey(init[i]) == k;
          assert pieces[i] == init[i];
        } else {
          assert ValidPiece(pieces[|pieces| - 1]) && TokenKey(pieces[|pieces| - 1]) == k;
        }
      }
    }
  }

  /** Every valid piece has its key in the table. */
  lemma {:induction false} TableHasEveryPiece(pieces: seq<string>)
    ensures forall i :: 0 <= i < |pieces| && ValidPiece(pieces[i]) ==> TokenKey(pieces[i]) in TableOf(pieces)
  {
    if |pieces| > 0 {
      var init := pieces[..|pieces| - 1];
      TableHasEveryPiece(init);
      forall i | 0 <= i < |pieces| && ValidPiece(pieces[i])
        ensures TokenKey(pieces[i]) in TableOf(pieces)
      {
        if i < |init| {
          assert pieces[i] == init[i];
        }
      }
    }
  }

  /** A later piece with the same text rewrites the entry it produced, so the
      last valid piece decides the entry. */
  lemma LastPieceWins(pieces: seq<string>, piece: string)
    requires ValidPiece(piece)
    ensures TableOf(pieces + [piece])[TokenKey(piece)] == TokenLimit(TokenKey(piece), PieceLimit(piece))
  {
    assert (pieces + [piece])[..|pieces|] == pieces;
  }

  /** Resolving a listed piece's key yields the piece's integer. */
  lemma {:induction false} LimitForListedPiece(pieces: seq<string>, i: int)
    requires 0 <= i < |pieces| && ValidPiece(pieces[i])
    ensures TokenLimitList(TableOf(pieces)).LimitFor(TokenKey(pieces[i])) == PieceLimit(pieces[i])
  {
    TableEntryShape(pieces);
    TableHasEveryPiece(pieces);
    var key := TokenKey(pieces[i]);
    assert key[|TokenPrefix|..] == PieceText(pieces[i]);
  }

  /** A token no valid piece produced resolves to 0, "no override". */
  lemma {:induction false} LimitForUnlisted(pieces: seq<string>, token: string)
    requires forall i :: 0 <= i < |pieces| && ValidPiece(pieces[i]) ==> TokenKey(pieces[i]) != token
    ensures TokenLimitList(TableOf(pieces)).LimitFor(token) == 0
  {
    TableKeysFromPieces(pieces);
  }

  /** Blank input gives an empty table. */
  lemma BlankInputGivesEmptyTable(limitsParam: string)
    requires AllSpace(limitsParam)
    ensures ParseTokenLimits(limitsParam).list == map[]
  {
    TrimSpaceEmptyIffBlank(limitsParam);
  }

  /** Text without surrounding space that Atoi accepts is a valid piece keyed
      by its own text. */
  lemma TrimmedPiece(d: string, n: int)
    requires |d| > 0 && !IsSpace(d[0]) && !IsSpace(d[|d| - 1]) && Atoi(d) == Some(n)
    ensures ValidPiece(d) && TokenKey(d) == TokenPrefix + d && PieceLimit(d) == n
  {
    TrimSpaceKeeps(d);
  }

  /** Text with a non-space somewhere is parsed piece by piece. */
  lemma ParseNonBlank(limitsParam: string, i: int)
    requires 0 <= i < |limitsParam| && !IsSpace(limitsParam[i])
    ensures ParseTokenLimits(limitsParam).list == TableOf(Split(limitsParam))
  {
    TrimSpaceEmptyIffBlank(limitsParam);
  }

  /** A number's decimal text is a valid piece keyed by that text. */
  lemma DecimalPiece(n: int)
    requires 0 <= n <= MaxInt
    ensures ValidPiece(Itoa(n)) && TokenKey(Itoa(n)) == TokenPrefix + Itoa(n) && PieceLimit(Itoa(n)) == n
  {
    AtoiItoa(n);
    FormatNatDigits(n);
    var d := Itoa(n);
    assert !IsSpace(d[0]) && !IsSpace(d[|d| - 1]);
    TrimmedPiece(d, n);
  }

  /** "10", "20" and "30" are valid pieces keyed by their own text. */
  lemma NumberPiece(n: int, d: string, key: string)
    requires n == 10 || n == 20 || n == 30
    requires d == Itoa(n) && key == TokenPrefix + d
    ensures ValidPiece(d) && TokenKey(d) == key && PieceLimit(d) == n
  {
    DecimalPiece(n);
  }

  /** A word, the empty piece and a blank piece are not valid pieces. */
  lemma InvalidPieces()
    ensures !ValidPiece("abc") && !ValidPiece("") && !ValidPiece("  ")
  {
    assert !ValidPiece("abc") by {
      TrimSpaceKeeps("abc");
      assert !IsDigit("abc"[0]);
    }
    assert !ValidPiece("  ") by {
      TrimSpaceEmptyIffBlank("  ");
    }
  }

  /** How the pieces of the two example lists are read. */
  lemma ExamplePieces()
    ensures ValidPiece("10") && TokenKey("10") == "Token10" && PieceLimit("10") == 10
    ensures ValidPiece("20") && TokenKey("20") == "Token20" && PieceLimit("20") == 20
    ensures ValidPiece("30") && TokenKey("30") == "Token30" && PieceLimit("30") == 30
    ensures !ValidPiece("abc") && !ValidPiece("") && !ValidPiece("  ")
  {
    NumberPiece(10, "10", "Token10");
    NumberPiece(20, "20", "Token20");
    NumberPiece(30, "30", "Token30");
    InvalidPieces();
  }

  /** "10,20" gives Token10 -> 10 and Token20 -> 20. */
  lemma ParsesValidValues()
    ensures ParseTokenLimits("10,20").list ==
      map["Token10" := TokenLimit("Token10", 10), "Token20" := TokenLimit("Token20", 20)]
  {
    var pieces := ["10", "20"];
    assert Split("10,20") == pieces by {
      assert Join(pieces) == "10,20";
      SplitJoin(pieces);
    }
    ParseNonBlank("10,20", 0);
    ExamplePieces();
    TableOfSnoc([], "10");
    TableOfSnoc(["10"], "20");
    assert [] + ["10"] == ["10"] && ["10"] + ["20"] == pieces;
  }

  /** The table of the pieces of "10,abc,,  ,30". */
  lemma InvalidValuesTable()
    ensures TableOf(["10", "abc", "", "  ", "30"]) ==
      map["Token10" := TokenLimit("Token10", 10), "Token30" := TokenLimit("Token30", 30)]
  {
    ExamplePieces();
    TableOfSnoc([], "10");
    TableOfSnoc(["10"], "abc");
    TableOfSnoc(["10", "abc"], "");
    TableOfSnoc(["10", "abc", ""], "  ");
    TableOfSnoc(["10", "abc", "", "  "], "30");
    assert [] + ["10"] == ["10"];
    assert ["10"] + ["abc"] == ["10", "abc"];
    assert ["10", "abc"] + [""] == ["10", "abc", ""];
    assert ["10", "abc", ""] + ["  "] == ["10", "abc", "", "  "];
    assert ["10", "abc", "", "  "] + ["30"] == ["10", "abc", "", "  ", "30"];
  }

  lemma InvalidValuesSplit()
    ensures Split("10,abc,,  ,30") == ["10", "abc", "", "  ", "30"]
  {
    var pieces := ["10", "abc", "", "  ", "30"];
    assert Join(pieces) == "10,abc,,  ,30";
    SplitJoin(pieces);
  }

  /** "10,abc,,  ,30" keeps Token10 and Token30: the word, the empty piece and
      the blank piece add nothing. */
  lemma IgnoresInvalidValues()
    ensures ParseTokenLimits("10,abc,,  ,30").list ==
      map["Token10" := TokenLimit("Token10", 10), "Token30" := TokenLimit("Token30", 30)]
  {
    InvalidValuesSplit();
    ParseNonBlank("10,abc,,  ,30", 0);
    InvalidValuesTable();
  }

  /** A parameter made of one comma-free piece gives a one-entry table. */
  lemma SinglePieceTable(d: string, n: int)
    requires ',' !in d
    requires |d| > 0 && !IsSpace(d[0]) && !IsSpace(d[|d| - 1]) && Atoi(d) == Some(n)
    ensures ParseTokenLimits(d).list == map[TokenPrefix + d := TokenLimit(TokenPrefix + d, n)]
  {
    SplitCommaFree(d);
    ParseNonBlank(d, 0);
    TrimmedPiece(d, n);
    TableOfSnoc([], d);
    assert [] + [d] == [d];
  }

  /** The key keeps the text verbatim: "05" is stored as Token05 with limit 5,
      and Token5 stays unlisted. */
  lemma KeyKeepsLeadingZero()
    ensures ParseTokenLimits("05").list == map["Token05" := TokenLimit("Token05", 5)]
    ensures ParseTokenLimits("05").LimitFor("Token5") == 0
  {
    assert Atoi("05") == Some(5) by { assert "05"[..1] == "0"; AtoiUnsigned("05"); }
    SinglePieceTable("05", 5);
    assert TokenPrefix + "05" == "Token05";
  }

  /** A negative number is listed as it is: "-5" gives Token-5 -> -5. */
  lemma NegativeLimitIsListed()
    ensures ParseTokenLimits("-5").list == map["Token-5" := TokenLimit("Token-5", -5)]
  {
    assert Atoi("-5") == Some(-5) by { assert "-5"[1..] == "5"; }
    SinglePieceTable("-5", -5);
    assert TokenPrefix + "-5" == "Token-5";
  }
}
