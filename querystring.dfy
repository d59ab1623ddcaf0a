/** Parameter values and the query string built from them
    (convertValuesToString and generateGetVariables in CTAWrapper.php). */
module QueryString {
  import opened Strings
  import opened UrlEncoding

  /** A request parameter's value. PHP accepts anything; the model keeps the
      kinds the API calls use: booleans, strings, lists of strings, and null. */
  datatype ParamValue = Bool(b: bool) | Text(s: Bytes) | List(items: seq<Bytes>) | Null

  /** One entry of the ordered parameter array. */
  datatype Param = Param(name: Bytes, value: ParamValue)

  /** convertValuesToString. A null comes back as null, which the caller
      compares loosely equal to ''; it is modelled as the empty string. */
  function ConvertValuesToString(v: ParamValue): Bytes
  {
    match v
    case Bool(b) => if b then "TRUE" else "FALSE"
    case List(items) => Join(',', items)
    case Text(s) => s
    case Null => []
  }

  /** The test `$value == ''` that drops a parameter. */
  predicate Skipped(p: Param)
  {
    ConvertValuesToString(p.value) == []
  }

  /** The parameters that reach the query string, in their original order. */
  function Survivors(ps: seq<Param>): (r: seq<Param>)
    ensures |r| <= |ps|
  {
    if |ps| == 0 then []
    else
      var last := ps[|ps| - 1];
      assert ps == ps[..|ps| - 1] + [last];
      Survivors(ps[..|ps| - 1]) + (if Skipped(last) then [] else [last])
  }

  /** A parameter reaches the query string exactly when its converted
      value is not empty. */
  lemma {:induction false} SurvivorsMember(ps: seq<Param>, p: Param)
    ensures p in Survivors(ps) <==> p in ps && !Skipped(p)
  {
    if |ps| > 0 {
      var init, last := ps[..|ps| - 1], ps[|ps| - 1];
      SurvivorsMember(init, p);
      assert ps == init + [last];
    }
  }

  /** The text written for one surviving parameter. */
  function Piece(p: Param): Bytes
  {
    UrlEncode(p.name) + EqualsSign + UrlEncode(ConvertValuesToString(p.value))
  }

  function Pieces(ps: seq<Param>): (r: seq<Bytes>)
    ensures |r| == |ps|
  {
    seq(|ps|, i requires 0 <= i < |ps| => Piece(ps[i]))
  }

  /** Reference definition of the query string: nothing when no parameter
      survives, otherwise `?` followed by the pieces joined with `&`. */
  function Query(ps: seq<Param>): Bytes
  {
    Render(Survivors(ps))
  }

  /** What precedes a piece after `count` earlier pieces. */
  function Separator(count: nat): Byte
  {
    if count == 0 then '?' else '&'
  }

  /** The query string written for parameters that all survive. */
  function Render(s: seq<Param>): Bytes
  {
    if |s| == 0 then [] else ['?'] + Join('&', Pieces(s))
  }

  const QuestionMark: Bytes := "?"
  const Ampersand: Bytes := "&"
  const EqualsSign: Bytes := "="

  /** generateGetVariables: the loop over the parameters with the two
      accumulators of the source. */
  method GenerateGetVariables(data: seq<Param>) returns (getStr: Bytes)
    ensures getStr == Query(data)
  {
    getStr := [];
    var varCount := 0;
    for i := 0 to |data|
      invariant getStr == Query(data[..i])
      invariant varCount == |Survivors(data[..i])|
    {
      var value := ConvertValuesToString(data[i].value);
      if value == [] {
        SkipStep(data, i);
        continue;
      }
      ghost var before := getStr;
      if varCount == 0 {
        getStr := getStr + QuestionMark;
      } else {
        getStr := getStr + Ampersand;
      }
      ghost var withSeparator := getStr;
      getStr := getStr + UrlEncode(data[i].name) + EqualsSign + UrlEncode(value);
      KeepStep(data, i, before, withSeparator, getStr, varCount);
      varCount := varCount + 1;
    }
    assert data[..|data|] == data;
  }

  /** A skipped parameter changes neither accumulator. */
  lemma SkipStep(data: seq<Param>, i: nat)
    requires i < |data| && Skipped(data[i])
    ensures Query(data[..i + 1]) == Query(data[..i])
    ensures Survivors(data[..i + 1]) == Survivors(data[..i])
  {
    assert data[..i + 1] == data[..i] + [data[i]];
    QueryStep(data[..i], data[i]);
    SurvivorsAppend(data[..i], data[i]);
  }

  /** A kept parameter adds its separator and its piece. */
  lemma KeepStep(data: seq<Param>, i: nat, before: Bytes, withSeparator: Bytes, after: Bytes, count: nat)
    requires i < |data| && !Skipped(data[i])
    requires before == Query(data[..i]) && count == |Survivors(data[..i])|
    requires withSeparator == before + [Separator(count)]
    requires after == withSeparator + UrlEncode(data[i].name) + EqualsSign +
      UrlEncode(ConvertValuesToString(data[i].value))
    ensures after == Query(data[..i + 1]) && count + 1 == |Survivors(data[..i + 1])|
  {
    assert data[..i + 1] == data[..i] + [data[i]];
    QueryStep(data[..i], data[i]);
    SurvivorsAppend(data[..i], data[i]);
    AppendPiece(withSeparator, UrlEncode(data[i].name),
      UrlEncode(ConvertValuesToString(data[i].value)), after);
  }

  lemma AppendPiece(front: Bytes, name: Bytes, value: Bytes, whole: Bytes)
    requires whole == front + name + EqualsSign + value
    ensures whole == front + (name + EqualsSign + value)
  {
  }

  lemma SurvivorsAppend(ps: seq<Param>, p: Param)
    ensures Survivors(ps + [p]) == Survivors(ps) + (if Skipped(p) then [] else [p])
  {
    assert (ps + [p])[..|ps|] == ps;
  }

  /** One more parameter either leaves the query alone (skipped) or adds
      `?` or `&` and its piece. */
  lemma QueryStep(ps: seq<Param>, p: Param)
    ensures Skipped(p) ==> Query(ps + [p]) == Query(ps)
    ensures !Skipped(p) ==> Query(ps + [p]) == Query(ps) + [Separator(|Survivors(ps)|)] + Piece(p)
  {
    SurvivorsAppend(ps, p);
    if !Skipped(p) {
      var s := Survivors(ps);
      RenderAppend(s, p);
      assert Query(ps + [p]) == Render(s + [p]);
      assert Render(s + [p]) == Render(s) + [Separator(|s|)] + Piece(p);
    } else {
      assert Survivors(ps) + [] == Survivors(ps);
    }
  }

  lemma RenderAppend(s: seq<Param>, p: Param)
    ensures Render(s + [p]) == Render(s) + [Separator(|s|)] + Piece(p)
  {
    PiecesAppend(s, p);
    if |s| > 0 {
      JoinAppend('&', Pieces(s), Piece(p));
      Regroup(Join('&', Pieces(s + [p])), Join('&', Pieces(s)), Piece(p));
    } else {
      assert Pieces(s + [p]) == [Piece(p)];
    }
  }

  lemma Regroup(joined: Bytes, front: Bytes, x: Bytes)
    requires joined == front + ['&'] + x
    ensures ['?'] + joined == ['?'] + front + ['&'] + x
  {
  }

  lemma PiecesAppend(s: seq<Param>, p: Param)
    ensures Pieces(s + [p]) == Pieces(s) + [Piece(p)]
  {
    var l, r := Pieces(s + [p]), Pieces(s) + [Piece(p)];
    forall i | 0 <= i < |l| ensures l[i] == r[i] {
      if i < |s| { assert (s + [p])[i] == s[i]; }
    }
  }

  /** Which values are dropped: exactly the empty string, null, the empty
      list and the list holding one empty string. A boolean never is. */
  lemma SkippedIff(v: ParamValue)
    ensures ConvertValuesToString(v) == [] <==>
      v == Null || v == Text([]) || v == List([]) || v == List([[]])
    ensures v.Bool? ==> ConvertValuesToString(v) != []
  {
    if v.List? {
      JoinEmptyIff(',', v.items);
      if |v.items| == 1 && v.items[0] == [] {
        assert v.items == [[]];
      }
    }
  }

  /** A list value reads back element for element when no element holds a
      comma (convertValuesToString([1993, 1219]) is "1993,1219"). */
  lemma ListValueSplits(items: seq<Bytes>)
    requires |items| > 0 && FreeOf(',', items)
    ensures Split(',', ConvertValuesToString(List(items))) == items
  {
    SplitJoin(',', items);
  }

  lemma PiecesFree(ps: seq<Param>)
    ensures FreeOf('&', Pieces(ps)) && FreeOf('?', Pieces(ps))
  {
    forall i | 0 <= i < |ps| ensures '&' !in Pieces(ps)[i] && '?' !in Pieces(ps)[i] {
      NoDelimiters(ps[i].name);
      NoDelimiters(ConvertValuesToString(ps[i].value));
    }
  }

  /** The shape of the query string: empty iff nothing survives, otherwise
      one leading `?` and exactly one `&` between neighbouring survivors. */
  lemma {:induction false} QueryShape(ps: seq<Param>)
    ensures Query(ps) == [] <==> Survivors(ps) == []
    ensures Survivors(ps) != [] ==>
      Query(ps)[0] == '?' && Count('?', Query(ps)) == 1 &&
      Count('&', Query(ps)) == |Survivors(ps)| - 1
  {
    var s := Survivors(ps);
    if s != [] {
      PiecesFree(s);
      CountJoin('&', Pieces(s));
      CountAppend('?', ['?'], Join('&', Pieces(s)));
      CountAppend('&', ['?'], Join('&', Pieces(s)));
      JoinFree('?', Pieces(s));
      CountAbsent('?', Join('&', Pieces(s)));
    }
  }

  lemma {:induction false} JoinFree(c: Byte, items: seq<Bytes>)
    requires FreeOf(c, items) && c != '&'
    ensures c !in Join('&', items)
  {
    if |items| > 1 {
      JoinFree(c, items[1..]);
    }
  }

  /** A query string read back: drop the leading `?`, cut at every `&`,
      then cut each piece at its first `=`. */
  function ParseQuery(q: Bytes): seq<(Bytes, Bytes)>
  {
    if |q| == 0 then []
    else
      var pieces := Split('&', q[1..]);
      seq(|pieces|, i requires 0 <= i < |pieces| => SplitFirst('=', pieces[i]))
  }

  /** The encoded (name, value) pairs of the surviving parameters. */
  function EncodedPairs(ps: seq<Param>): (r: seq<(Bytes, Bytes)>)
    ensures |r| == |ps|
  {
    seq(|ps|, i requires 0 <= i < |ps| =>
      (UrlEncode(ps[i].name), UrlEncode(ConvertValuesToString(ps[i].value))))
  }

  /** Splitting the query string recovers exactly the encoded surviving
      pairs, in order. */
  lemma ParseQueryRoundTrip(ps: seq<Param>)
    ensures ParseQuery(Query(ps)) == EncodedPairs(Survivors(ps))
  {
    var s := Survivors(ps);
    if |s| > 0 {
      var q := Query(ps);
      assert q[1..] == Join('&', Pieces(s));
      PiecesFree(s);
      SplitJoin('&', Pieces(s));
      forall i | 0 <= i < |s|
        ensures SplitFirst('=', Pieces(s)[i]) == EncodedPairs(s)[i]
      {
        NoDelimiters(s[i].name);
        SplitFirstAt('=', UrlEncode(s[i].name), UrlEncode(ConvertValuesToString(s[i].value)));
      }
    }
  }

  /** Each pair of a parsed query passed through urldecode. */
  function DecodePairs(pairs: seq<(Bytes, Bytes)>): seq<(Bytes, Bytes)>
  {
    seq(|pairs|, i requires 0 <= i < |pairs| => (UrlDecode(pairs[i].0), UrlDecode(pairs[i].1)))
  }

  /** The name and converted value of each surviving parameter. */
  function Sent(ps: seq<Param>): seq<(Bytes, Bytes)>
  {
    var s := Survivors(ps);
    seq(|s|, i requires 0 <= i < |s| => (s[i].name, ConvertValuesToString(s[i].value)))
  }

  /** What a server reading the query string sees: every surviving
      parameter's name and converted value, in the order given. */
  lemma QueryDecodes(ps: seq<Param>)
    ensures DecodePairs(ParseQuery(Query(ps))) == Sent(ps)
  {
    ParseQueryRoundTrip(ps);
    var s := Survivors(ps);
    forall i | 0 <= i < |s|
      ensures DecodePairs(EncodedPairs(s))[i] == Sent(ps)[i]
    {
      DecodeEncode(s[i].name);
      DecodeEncode(ConvertValuesToString(s[i].value));
    }
  }
}
