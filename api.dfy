/** The URL and request builder of src/api.js: query-string encoding, path
    templates, route resolution through the `api` configuration section, and
    the request record `makeQuery` hands to the HTTP client. The HTTP call
    itself and the Observable it returns are not part of this model. */
module Api {
  import opened Outcomes
  import opened Strings
  import opened JsValues
  import opened UriComponent
  import Config

  // ======================================================================
  // Query strings: encodeQueryParams, stringifyParam, encodeParam, encodeParamMap

  /** `encodeParam(name, value, isArray)`: `name=value`, or `name[]=value` for an
      array element, with the name and `String(value)` escaped. */
  function EncodeParam(name: string, value: Value, isArray: bool): string
  {
    EncodeURIComponent(name) + (if isArray then "[]" else "") + "=" + EncodeURIComponent(ToString(value))
  }

  /** `stringifyParam(params)(name)`: one pair, or one pair per array element
      joined by `&`. */
  function StringifyParam(p: Prop): string
  {
    match p.val
    case Arr(items) =>
      Join(seq(|items|, i requires 0 <= i < |items| => EncodeParam(p.key, items[i], true)), "&")
    case _ => EncodeParam(p.key, p.val, false)
  }

  /** `names.map(stringifyParam(params))`. */
  function Stringified(props: seq<Prop>): (r: seq<string>)
    ensures |r| == |props|
  {
    if props == [] then [] else [StringifyParam(props[0])] + Stringified(props[1..])
  }

  /** String `i` is the stringified property `i`. */
  lemma {:induction false} StringifiedAt(props: seq<Prop>, i: nat)
    requires i < |props|
    ensures Stringified(props)[i] == StringifyParam(props[i])
  {
    var all := Stringified(props);
    var rest := Stringified(props[1..]);
    assert all == [StringifyParam(props[0])] + rest;
    if i > 0 {
      StringifiedAt(props[1..], i - 1);
      assert all[i] == rest[i - 1];
    }
  }

  /** `encodeQueryParams(params)`: the pieces of every own property, in property
      order, joined by `&`. `Object.getOwnPropertyNames` throws on `undefined`
      and `null`. */
  function EncodeQueryParams(params: Value): (r: Result<string>)
    ensures r.Throw? <==> params.Undefined? || params.Null?
  {
    if params.Undefined? || params.Null? then Throw(TypeError("cannot convert undefined or null to object"))
    else Ok(Join(Stringified(OwnProps(params)), "&"))
  }

  // ----------------------------------------------------------------------
  // What a query string means: the (name, value) pairs it carries

  /** The decoded pairs one property contributes. */
  function PropPairs(p: Prop): seq<(string, string)>
  {
    match p.val
    case Arr(items) => seq(|items|, i requires 0 <= i < |items| => (p.key + "[]", ToString(items[i])))
    case _ => [(p.key, ToString(p.val))]
  }

  /** The decoded pairs of all properties, in order. */
  function QueryPairs(props: seq<Prop>): seq<(string, string)>
  {
    if props == [] then [] else PropPairs(props[0]) + QueryPairs(props[1..])
  }

  /** A property list none of whose values is an empty array. */
  predicate NoEmptyArrays(props: seq<Prop>)
  {
    forall i :: 0 <= i < |props| ==> props[i].val != Arr([])
  }

  /** Reads one `name=value` piece back. */
  function ParsePair(piece: string): Option<(string, string)>
  {
    var parts := Split(piece, '=');
    if |parts| != 2 then None
    else
      var name :- Decode(parts[0]);
      var value :- Decode(parts[1]);
      Some((name, value))
  }

  function ParsePairs(pieces: seq<string>): Option<seq<(string, string)>>
  {
    if pieces == [] then Some([])
    else
      var first :- ParsePair(pieces[0]);
      var rest :- ParsePairs(pieces[1..]);
      Some([first] + rest)
  }

  /** Reads a whole query string back into its pairs. */
  function ParseQuery(q: string): Option<seq<(string, string)>>
  {
    if q == "" then Some([]) else ParsePairs(Split(q, '&'))
  }

  // ----------------------------------------------------------------------
  // Proofs about query strings

  /** The encoded pieces of one property, before they are joined. */
  function PropPieces(p: Prop): seq<string>
  {
    match p.val
    case Arr(items) => seq(|items|, i requires 0 <= i < |items| => EncodeParam(p.key, items[i], true))
    case _ => [EncodeParam(p.key, p.val, false)]
  }

  function Pieces(props: seq<Prop>): seq<string>
  {
    if props == [] then [] else PropPieces(props[0]) + Pieces(props[1..])
  }

  /** A piece with one `=` splits into the texts on either side of it. */
  lemma SplitAtEquals(a: string, b: string)
    requires '=' !in a && '=' !in b
    ensures Split(a + "=" + b, '=') == [a, b]
  {
    assert Join([a, b], "=") == a + "=" + b;
    SplitJoin([a, b], '=');
  }

  /** A piece `a=b` parses to what `a` and `b` decode to. */
  lemma ParsePairOf(a: string, b: string, name: string, value: string)
    requires '=' !in a && '=' !in b
    requires Decode(a) == Some(name) && Decode(b) == Some(value)
    ensures ParsePair(a + "=" + b) == Some((name, value))
  {
    SplitAtEquals(a, b);
  }

  /** An escaped name followed by `[]` or nothing decodes to the name followed
      by the same. */
  lemma DecodeName(name: string, suffix: string)
    requires suffix == "" || suffix == "[]"
    ensures Decode(EncodeURIComponent(name) + suffix) == Some(name + suffix)
  {
    DecodeEncodeAppend(name, suffix);
    DecodePlain(suffix);
  }

  /** Every piece is `escaped name[=]escaped value`: parsing it gives the pair
      back, and it holds no `&`. */
  lemma ParseEncodedParam(name: string, value: Value, isArray: bool)
    ensures ParsePair(EncodeParam(name, value, isArray))
      == Some((name + (if isArray then "[]" else ""), ToString(value)))
    ensures '&' !in EncodeParam(name, value, isArray)
    ensures EncodeParam(name, value, isArray) != ""
  {
    var suffix := if isArray then "[]" else "";
    var a := EncodeURIComponent(name) + suffix;
    var b := EncodeURIComponent(ToString(value));
    var piece := EncodeParam(name, value, isArray);
    assert piece == a + "=" + b;
    EscapedSeparators(name);
    EscapedSeparators(ToString(value));
    DecodeName(name, suffix);
    DecodeEncode(ToString(value));
    ParsePairOf(a, b, name + suffix, ToString(value));
    assert '&' !in suffix;
    assert '&' !in a;
    assert |piece| > 0;
  }

  /** An array element's piece is the escaped name, a raw `[]=`, and the
      escaped value; the escaped name holds no bracket of its own. */
  lemma ArrayPieceRaw(name: string, value: Value)
    ensures EncodeParam(name, value, true)
      == EncodeURIComponent(name) + "[]=" + EncodeURIComponent(ToString(value))
    ensures '[' !in EncodeURIComponent(name) && ']' !in EncodeURIComponent(name)
  {
    EscapedBrackets(name);
  }

  /** An escaped string holds no raw bracket. */
  lemma EscapedBrackets(s: string)
    ensures '[' !in EncodeURIComponent(s) && ']' !in EncodeURIComponent(s)
  {
    var e := EncodeURIComponent(s);
    forall i | 0 <= i < |e| ensures e[i] != '[' && e[i] != ']' {
      assert Unreserved(e[i]) || e[i] == '%';
    }
  }

  lemma {:induction false} ParsePairsAll(pieces: seq<string>, pairs: seq<(string, string)>)
    requires |pieces| == |pairs|
    requires forall i :: 0 <= i < |pieces| ==> ParsePair(pieces[i]) == Some(pairs[i])
    ensures ParsePairs(pieces) == Some(pairs)
  {
    if pieces != [] {
      ParsePairsAll(pieces[1..], pairs[1..]);
      assert [pairs[0]] + pairs[1..] == pairs;
    }
  }

  /** Parsing a non-empty list of pieces parses the first and then the rest. */
  lemma ParsePairsCons(xs: seq<string>, a: seq<(string, string)>)
    requires xs != [] && ParsePairs(xs) == Some(a)
    ensures a != [] && ParsePair(xs[0]) == Some(a[0]) && ParsePairs(xs[1..]) == Some(a[1..])
  {
  }

  lemma ParsePairsBuild(x: string, rest: seq<string>, p: (string, string), r: seq<(string, string)>)
    requires ParsePair(x) == Some(p) && ParsePairs(rest) == Some(r)
    ensures ParsePairs([x] + rest) == Some([p] + r)
  {
    var zs := [x] + rest;
    assert zs[0] == x && zs[1..] == rest;
  }

  lemma {:induction false} ParsePairsAppend(xs: seq<string>, ys: seq<string>, a: seq<(string, string)>, b: seq<(string, string)>)
    requires ParsePairs(xs) == Some(a) && ParsePairs(ys) == Some(b)
    ensures ParsePairs(xs + ys) == Some(a + b)
  {
    if xs == [] {
      assert xs + ys == ys && a + b == b;
    } else {
      ParsePairsCons(xs, a);
      ParsePairsAppend(xs[1..], ys, a[1..], b);
      ParsePairsBuild(xs[0], xs[1..] + ys, a[0], a[1..] + b);
      ConsAppend(xs, ys);
      ConsAppend(a, b);
    }
  }

  lemma ConsAppend<T>(xs: seq<T>, ys: seq<T>)
    requires xs != []
    ensures [xs[0]] + (xs[1..] + ys) == xs + ys
  {
    assert xs == [xs[0]] + xs[1..];
  }

  lemma PropPiecesParse(p: Prop)
    ensures ParsePairs(PropPieces(p)) == Some(PropPairs(p))
    ensures forall i :: 0 <= i < |PropPieces(p)| ==> '&' !in PropPieces(p)[i] && PropPieces(p)[i] != ""
    ensures |PropPieces(p)| == |PropPairs(p)|
  {
    var pieces, pairs := PropPieces(p), PropPairs(p);
    if p.val.Arr? {
      var items := p.val.items;
      assert pieces == seq(|items|, i requires 0 <= i < |items| => EncodeParam(p.key, items[i], true));
      assert pairs == seq(|items|, i requires 0 <= i < |items| => (p.key + "[]", ToString(items[i])));
      forall i | 0 <= i < |items|
        ensures ParsePair(pieces[i]) == Some(pairs[i]) && '&' !in pieces[i] && pieces[i] != ""
      {
        ParseEncodedParam(p.key, items[i], true);
      }
      ParsePairsAll(pieces, pairs);
    } else {
      ParseEncodedParam(p.key, p.val, false);
      assert pieces == [EncodeParam(p.key, p.val, false)];
      assert pairs == [(p.key, ToString(p.val))];
      assert p.key + "" == p.key;
      ParsePairsAll(pieces, pairs);
    }
  }

  lemma {:induction false} PiecesParse(props: seq<Prop>)
    ensures ParsePairs(Pieces(props)) == Some(QueryPairs(props))
    ensures forall i :: 0 <= i < |Pieces(props)| ==> '&' !in Pieces(props)[i] && Pieces(props)[i] != ""
  {
    if props != [] {
      PropPiecesParse(props[0]);
      PiecesParse(props[1..]);
      ParsePairsAppend(PropPieces(props[0]), Pieces(props[1..]), PropPairs(props[0]), QueryPairs(props[1..]));
    }
  }

  lemma {:induction false} PiecesEmpty(props: seq<Prop>)
    requires NoEmptyArrays(props)
    ensures Pieces(props) == [] <==> props == []
  {
    if props != [] {
      assert |PropPieces(props[0])| >= 1;
    }
  }

  /** One property's string is the join of its pieces. */
  lemma StringifyAsPieces(p: Prop)
    ensures StringifyParam(p) == Join(PropPieces(p), "&")
  {
  }

  /** `encodeQueryParams` is the join of all pieces, when no array is empty. */
  lemma {:induction false} EncodeAsPieces(props: seq<Prop>)
    requires NoEmptyArrays(props)
    ensures Join(Stringified(props), "&") == Join(Pieces(props), "&")
  {
    if props != [] {
      var first := PropPieces(props[0]);
      var rest := props[1..];
      StringifyAsPieces(props[0]);
      assert |first| >= 1;
      var head := [StringifyParam(props[0])];
      assert Stringified(props) == head + Stringified(rest);
      if rest == [] {
        assert Stringified(props) == head;
        assert Pieces(props) == first + [];
        assert first + [] == first;
      } else {
        assert NoEmptyArrays(rest);
        EncodeAsPieces(rest);
        PiecesEmpty(rest);
        JoinAppend(head, Stringified(rest), "&");
        JoinAppend(first, Pieces(rest), "&");
      }
    }
  }

  lemma JoinNonEmpty(parts: seq<string>, sep: string)
    requires |parts| >= 1 && parts[0] != ""
    ensures Join(parts, sep) != ""
  {
  }

  /** The query string round trip: reading back what `encodeQueryParams`
      wrote gives one pair per scalar property and one `name[]` pair per array
      element, names and values unescaped, in property and element order.
      (An empty array writes an empty piece, which is why it is excluded.) */
  lemma QueryRoundTrip(params: Value)
    requires !params.Undefined? && !params.Null?
    requires NoEmptyArrays(OwnProps(params))
    ensures ParseQuery(EncodeQueryParams(params).value) == Some(QueryPairs(OwnProps(params)))
  {
    var props := OwnProps(params);
    EncodeAsPieces(props);
    PiecesParse(props);
    var pieces := Pieces(props);
    PiecesEmpty(props);
    if pieces == [] {
      assert QueryPairs(props) == [];
    } else {
      SplitJoin(pieces, '&');
      JoinNonEmpty(pieces, "&");
    }
  }

  /** A property whose values are all scalars yields exactly one pair per
      property, in property order. */
  lemma {:induction false} ScalarPairs(props: seq<Prop>)
    requires forall i :: 0 <= i < |props| ==> !props[i].val.Arr?
    ensures QueryPairs(props) == seq(|props|, i requires 0 <= i < |props| => (props[i].key, ToString(props[i].val)))
  {
    if props != [] {
      ScalarPairs(props[1..]);
    }
  }

  /** An object without properties encodes as the empty string. */
  lemma EmptyQuery()
    ensures EncodeQueryParams(Obj([])) == Ok("")
  {
    assert OwnProps(Obj([])) == [];
    assert Stringified([]) == [];
  }

  /** No escaped name or value holds a raw space, `&` or `=`, so every `&` and
      `=` of a query string is a separator. */
  lemma EscapedSeparators(s: string)
    ensures ' ' !in EncodeURIComponent(s) && '&' !in EncodeURIComponent(s) && '=' !in EncodeURIComponent(s)
  {
    var e := EncodeURIComponent(s);
    forall i | 0 <= i < |e| ensures e[i] != ' ' && e[i] != '&' && e[i] != '=' {
      assert Unreserved(e[i]) || e[i] == '%';
    }
  }

  // ======================================================================
  // Path templates: withRouteParams, replaceParams, trim, notEmpty

  /** `chunks.map(trim)`. */
  function TrimAll(chunks: seq<string>): (r: seq<string>)
    ensures |r| == |chunks|
  {
    if chunks == [] then [] else [Trim(chunks[0])] + TrimAll(chunks[1..])
  }

  /** Each chunk is trimmed in its own place. */
  lemma {:induction false} TrimAllAt(chunks: seq<string>, i: nat)
    requires i < |chunks|
    ensures TrimAll(chunks)[i] == Trim(chunks[i])
  {
    var trimmed := TrimAll(chunks);
    var rest := TrimAll(chunks[1..]);
    assert trimmed == [Trim(chunks[0])] + rest;
    if i > 0 {
      TrimAllAt(chunks[1..], i - 1);
      assert trimmed[i] == rest[i - 1];
    }
  }

  /** `chunks.filter(notEmpty)`. */
  function NonEmpty(chunks: seq<string>): (r: seq<string>)
    ensures |r| <= |chunks|
    ensures forall i :: 0 <= i < |r| ==> r[i] != ""
  {
    if chunks == [] then []
    else if chunks[0] != "" then [chunks[0]] + NonEmpty(chunks[1..])
    else NonEmpty(chunks[1..])
  }

  /** `path.split('/').map(trim).filter(notEmpty)`: the template's segments. */
  function Segments(path: string): seq<string>
  {
    NonEmpty(TrimAll(Split(path, '/')))
  }

  /** Filtering a concatenation filters each part. */
  lemma {:induction false} NonEmptyAppend(xs: seq<string>, ys: seq<string>)
    ensures NonEmpty(xs + ys) == NonEmpty(xs) + NonEmpty(ys)
  {
    if xs != [] {
      NonEmptyAppend(xs[1..], ys);
      assert (xs + ys)[0] == xs[0] && (xs + ys)[1..] == xs[1..] + ys;
      if xs[0] != "" {
        assert NonEmpty(xs + ys) == [xs[0]] + NonEmpty(xs[1..] + ys);
        assert [xs[0]] + (NonEmpty(xs[1..]) + NonEmpty(ys)) == ([xs[0]] + NonEmpty(xs[1..])) + NonEmpty(ys);
      }
    } else {
      assert xs + ys == ys;
    }
  }

  /** A single chunk is kept exactly when it is not empty. */
  lemma NonEmptySingle(x: string)
    ensures NonEmpty([x]) == if x == "" then [] else [x]
  {
    assert [x][1..] == [];
  }

  /** A segment is never empty, padded or holding a `/`. */
  lemma SegmentsShape(path: string)
    ensures var segs := Segments(path);
      forall i :: 0 <= i < |segs| ==> segs[i] != "" && Trimmed(segs[i]) && '/' !in segs[i]
  {
    var chunks := Split(path, '/');
    TrimAllShape(chunks);
    NonEmptyKeeps(TrimAll(chunks));
  }

  /** Filtering keeps only chunks of the input: trimmed ones without a `/`
      stay so. */
  lemma {:induction false} NonEmptyKeeps(chunks: seq<string>)
    requires forall i :: 0 <= i < |chunks| ==> Trimmed(chunks[i]) && '/' !in chunks[i]
    ensures forall i :: 0 <= i < |NonEmpty(chunks)| ==> Trimmed(NonEmpty(chunks)[i]) && '/' !in NonEmpty(chunks)[i]
  {
    if chunks != [] {
      var rest := NonEmpty(chunks[1..]);
      NonEmptyKeeps(chunks[1..]);
      if chunks[0] != "" {
        assert NonEmpty(chunks) == [chunks[0]] + rest;
      } else {
        assert NonEmpty(chunks) == rest;
      }
    }
  }

  /** Trimming chunks without a `/` leaves trimmed chunks without a `/`. */
  lemma TrimAllShape(chunks: seq<string>)
    requires forall i :: 0 <= i < |chunks| ==> '/' !in chunks[i]
    ensures forall i :: 0 <= i < |TrimAll(chunks)| ==> Trimmed(TrimAll(chunks)[i]) && '/' !in TrimAll(chunks)[i]
  {
    var trimmed := TrimAll(chunks);
    forall i | 0 <= i < |trimmed| ensures Trimmed(trimmed[i]) && '/' !in trimmed[i] {
      TrimAllAt(chunks, i);
      TrimShape(chunks[i]);
      assert '/' !in chunks[i];
    }
  }

  /** A segment `:name` stands for the route parameter `name`. */
  predicate IsPlaceholder(segment: string)
  {
    StartsWith(segment, ":")
  }

  /** `replaceParams(params, path)(chunk)`. */
  function ReplaceParam(params: Value, path: string, chunk: string): Result<Value>
  {
    if IsPlaceholder(chunk) then
      var name := chunk[1..];
      var v :- Get(params, name);
      if !v.Undefined? then Ok(v) else Throw(MissingRouteParam(name, path))
    else Ok(Str(chunk))
  }

  /** A placeholder segment whose parameter can be read and is defined. */
  predicate Bound(params: Value, segment: string)
  {
    IsPlaceholder(segment) ==> Get(params, segment[1..]).Ok? && !Get(params, segment[1..]).value.Undefined?
  }

  /** `chunks.map(replaceParams(params, path))`: the first chunk that throws
      decides the exception. */
  function ReplaceAll(params: Value, path: string, chunks: seq<string>): (r: Result<seq<Value>>)
    ensures r.Ok? ==> |r.value| == |chunks|
  {
    if chunks == [] then Ok([])
    else
      var v :- ReplaceParam(params, path, chunks[0]);
      var rest :- ReplaceAll(params, path, chunks[1..]);
      Ok([v] + rest)
  }

  /** `withRouteParams(path, params)`: `/` followed by the segments joined by
      `/`, each placeholder replaced by its parameter's value. */
  function WithRouteParams(path: string, params: Value): (r: Result<string>)
    ensures r.Ok? ==> |r.value| >= 1 && r.value[0] == '/'
  {
    var values :- ReplaceAll(params, path, Segments(path));
    Ok("/" + ArrayJoin(values, "/"))
  }

  /** One chunk substitutes exactly when it is bound: a literal to itself, a
      placeholder to its parameter's value. */
  lemma ReplaceParamBound(params: Value, path: string, chunk: string)
    ensures ReplaceParam(params, path, chunk).Ok? <==> Bound(params, chunk)
    ensures ReplaceParam(params, path, chunk).Ok? && !IsPlaceholder(chunk) ==>
      ReplaceParam(params, path, chunk).value == Str(chunk)
    ensures ReplaceParam(params, path, chunk).Ok? && IsPlaceholder(chunk) ==>
      Get(params, chunk[1..]) == ReplaceParam(params, path, chunk)
    ensures IsPlaceholder(chunk) && Get(params, chunk[1..]) == Ok(Undefined) ==>
      ReplaceParam(params, path, chunk) == Throw(MissingRouteParam(chunk[1..], path))
    ensures IsPlaceholder(chunk) && Get(params, chunk[1..]).Throw? ==>
      ReplaceParam(params, path, chunk) == Throw(Get(params, chunk[1..]).error)
  {
  }

  /** Substitution fails with the exception of the first unbound chunk. */
  lemma {:induction false} ReplaceAllFailsAt(params: Value, path: string, chunks: seq<string>, i: nat)
    requires i < |chunks| && !Bound(params, chunks[i])
    requires forall j :: 0 <= j < i ==> Bound(params, chunks[j])
    ensures ReplaceParam(params, path, chunks[i]).Throw?
    ensures ReplaceAll(params, path, chunks) == Throw(ReplaceParam(params, path, chunks[i]).error)
  {
    ReplaceParamBound(params, path, chunks[0]);
    if i > 0 {
      var rest := chunks[1..];
      forall j | 0 <= j < i - 1 ensures Bound(params, rest[j]) {
        assert rest[j] == chunks[j + 1];
      }
      assert rest[i - 1] == chunks[i];
      ReplaceAllFailsAt(params, path, rest, i - 1);
    }
  }

  /** With parameters that can be read, the first placeholder of the template
      whose value is `undefined` is reported by name, with the template. */
  lemma MissingParamRaised(path: string, params: Value, i: nat)
    requires !params.Undefined? && !params.Null?
    requires i < |Segments(path)| && !Bound(params, Segments(path)[i])
    requires forall j :: 0 <= j < i ==> Bound(params, Segments(path)[j])
    ensures IsPlaceholder(Segments(path)[i])
    ensures WithRouteParams(path, params) == Throw(MissingRouteParam(Segments(path)[i][1..], path))
  {
    var segs := Segments(path);
    ReplaceAllFailsAt(params, path, segs, i);
    ReplaceParamBound(params, path, segs[i]);
    assert Get(params, segs[i][1..]) == Ok(Undefined);
  }

  /** Substitution succeeds exactly when every placeholder is bound. */
  lemma {:induction false} ReplaceAllBound(params: Value, path: string, chunks: seq<string>)
    ensures ReplaceAll(params, path, chunks).Ok? <==> forall i :: 0 <= i < |chunks| ==> Bound(params, chunks[i])
  {
    if chunks != [] {
      ReplaceParamBound(params, path, chunks[0]);
      ReplaceAllBound(params, path, chunks[1..]);
      assert forall i :: 1 <= i < |chunks| ==> chunks[i] == chunks[1..][i - 1];
    }
  }

  /** Substituted chunks: a literal renders as itself, a placeholder as its
      parameter's defined value, position by position. */
  lemma ReplaceAllValues(params: Value, path: string, chunks: seq<string>)
    requires ReplaceAll(params, path, chunks).Ok?
    ensures var values := ReplaceAll(params, path, chunks).value;
      && |values| == |chunks|
      && (forall i :: 0 <= i < |chunks| && !IsPlaceholder(chunks[i]) ==> values[i] == Str(chunks[i]))
      && (forall i :: 0 <= i < |chunks| && IsPlaceholder(chunks[i]) ==>
            Get(params, chunks[i][1..]) == Ok(values[i]) && !values[i].Undefined?)
  {
    forall i | 0 <= i < |chunks| ensures ReplaceParam(params, path, chunks[i]) == Ok(ReplaceAll(params, path, chunks).value[i]) {
      ReplaceAllAt(params, path, chunks, i);
    }
    forall i | 0 <= i < |chunks| {
      ReplaceParamBound(params, path, chunks[i]);
    }
  }

  /** Value `i` of a successful substitution is what chunk `i` substitutes to. */
  lemma {:induction false} ReplaceAllAt(params: Value, path: string, chunks: seq<string>, i: nat)
    requires ReplaceAll(params, path, chunks).Ok? && i < |chunks|
    ensures ReplaceParam(params, path, chunks[i]) == Ok(ReplaceAll(params, path, chunks).value[i])
  {
    var values := ReplaceAll(params, path, chunks).value;
    var first := ReplaceParam(params, path, chunks[0]);
    var rest := ReplaceAll(params, path, chunks[1..]);
    assert first.Ok? && rest.Ok? && values == [first.value] + rest.value;
    if i > 0 {
      ReplaceAllAt(params, path, chunks[1..], i - 1);
      assert chunks[i] == chunks[1..][i - 1] && values[i] == rest.value[i - 1];
    }
  }

  /** A failed substitution fails at its first unbound chunk, with that chunk's
      exception. */
  lemma {:induction false} ReplaceAllFirstError(params: Value, path: string, chunks: seq<string>)
    requires ReplaceAll(params, path, chunks).Throw?
    ensures exists i :: (0 <= i < |chunks|
      && (forall j :: 0 <= j < i ==> Bound(params, chunks[j]))
      && ReplaceParam(params, path, chunks[i]) == Throw(ReplaceAll(params, path, chunks).error))
  {
    var e := ReplaceAll(params, path, chunks).error;
    if ReplaceParam(params, path, chunks[0]).Throw? {
      assert ReplaceParam(params, path, chunks[0]) == Throw(e);
    } else {
      ReplaceParamBound(params, path, chunks[0]);
      ReplaceAllFirstError(params, path, chunks[1..]);
      var rest := chunks[1..];
      var k :| 0 <= k < |rest| && (forall j :: 0 <= j < k ==> Bound(params, rest[j]))
        && ReplaceParam(params, path, rest[k]) == Throw(e);
      assert chunks[k + 1] == rest[k];
      forall j | 0 <= j < k + 1 ensures Bound(params, chunks[j]) {
        if j > 0 {
          assert chunks[j] == rest[j - 1];
        }
      }
    }
  }

  /** The path is built exactly when every placeholder of the template has a
      defined value. */
  lemma RouteParamsBound(path: string, params: Value)
    ensures WithRouteParams(path, params).Ok? <==>
      forall i :: 0 <= i < |Segments(path)| ==> Bound(params, Segments(path)[i])
  {
    ReplaceAllBound(params, path, Segments(path));
  }

  /** The text of the JavaScript `Error` each exception carries. */
  function Message(e: Exception): string
  {
    match e
    case UnknownRoute(route) => UnknownRoutePrefix + route + "\"!"
    case MissingRouteParam(name, path) => MissingParamPrefix + name + MissingParamMiddle + path + MissingParamSuffix
    case TypeError(what) => what
  }

  const UnknownRoutePrefix := "makeQueryUrl(): неправильный роут \""
  const MissingParamPrefix := "withRouteParams(): не задан параметр \""
  const MissingParamMiddle := "\"для пути "
  const MissingParamSuffix := ".\n Проверьте, что вы правильно подготовили параметры"

  /** The message for a missing parameter names the parameter and the path. */
  lemma MissingParamMessage(name: string, path: string)
    ensures var m := Message(MissingRouteParam(name, path));
      var n0 := |MissingParamPrefix|;
      var p0 := n0 + |name| + |MissingParamMiddle|;
      && p0 + |path| <= |m|
      && m[n0..n0 + |name|] == name
      && m[p0..p0 + |path|] == path
  {
    var m := Message(MissingRouteParam(name, path));
    var n0 := |MissingParamPrefix|;
    var p0 := n0 + |name| + |MissingParamMiddle|;
    assert m == MissingParamPrefix + name + MissingParamMiddle + path + MissingParamSuffix;
    assert m[n0..n0 + |name|] == name;
    assert m[p0..p0 + |path|] == path;
  }

  /** Only a placeholder whose value is `undefined` reports a missing parameter. */
  lemma MissingParamChunk(params: Value, path: string, chunk: string, name: string, p: string)
    requires ReplaceParam(params, path, chunk) == Throw(MissingRouteParam(name, p))
    ensures p == path && chunk == ":" + name && Get(params, name) == Ok(Undefined)
  {
    assert chunk == chunk[..1] + chunk[1..];
  }

  /** A missing parameter is reported with the template it belongs to and the
      name of the first placeholder, in template order, that has no value. */
  lemma MissingParamReported(path: string, params: Value, name: string, p: string)
    requires WithRouteParams(path, params) == Throw(MissingRouteParam(name, p))
    ensures p == path
    ensures exists i :: (0 <= i < |Segments(path)| && Segments(path)[i] == ":" + name
      && Get(params, name) == Ok(Undefined)
      && forall j :: 0 <= j < i ==> Bound(params, Segments(path)[j]))
  {
    var segs := Segments(path);
    var e := ReplaceAll(params, path, segs).error;
    assert e == MissingRouteParam(name, p);
    ReplaceAllFirstError(params, path, segs);
    var i :| 0 <= i < |segs| && (forall j :: 0 <= j < i ==> Bound(params, segs[j]))
      && ReplaceParam(params, path, segs[i]) == Throw(e);
    MissingParamChunk(params, path, segs[i], name, p);
  }

  /** A placeholder is replaced by its parameter's value, rendered as
      `Array.prototype.join` renders it; other segments pass through trimmed,
      in template order. */
  lemma RouteSubstitution(path: string, params: Value)
    requires WithRouteParams(path, params).Ok?
    ensures var segs := Segments(path);
      var values := ReplaceAll(params, path, segs).value;
      && ReplaceAll(params, path, segs).Ok?
      && WithRouteParams(path, params).value == "/" + ArrayJoin(values, "/")
      && |values| == |segs|
      && (forall i :: 0 <= i < |segs| && !IsPlaceholder(segs[i]) ==> JoinElement(values[i]) == segs[i])
      && (forall i :: 0 <= i < |segs| && IsPlaceholder(segs[i]) ==>
            Get(params, segs[i][1..]) == Ok(values[i]) && !values[i].Undefined?)
  {
    var segs := Segments(path);
    ReplaceAllValues(params, path, segs);
    var values := ReplaceAll(params, path, segs).value;
    forall i | 0 <= i < |segs| && !IsPlaceholder(segs[i]) ensures JoinElement(values[i]) == segs[i] {
      assert values[i] == Str(segs[i]);
    }
  }

  /** A template without placeholders. */
  predicate NoPlaceholders(path: string)
  {
    forall i :: 0 <= i < |Segments(path)| ==> !IsPlaceholder(Segments(path)[i])
  }

  lemma {:induction false} TrimAllTrimmed(chunks: seq<string>)
    requires forall i :: 0 <= i < |chunks| ==> Trimmed(chunks[i])
    ensures TrimAll(chunks) == chunks
  {
    if chunks != [] {
      TrimOfTrimmed(chunks[0]);
      TrimAllTrimmed(chunks[1..]);
    }
  }

  lemma TrimAllCons(x: string, xs: seq<string>)
    ensures TrimAll([x] + xs) == [Trim(x)] + TrimAll(xs)
  {
    assert ([x] + xs)[1..] == xs;
  }

  lemma {:induction false} NonEmptyAll(chunks: seq<string>)
    requires forall i :: 0 <= i < |chunks| ==> chunks[i] != ""
    ensures NonEmpty(chunks) == chunks
  {
    if chunks != [] {
      NonEmptyAll(chunks[1..]);
    }
  }

  lemma ArrayJoinStrings(segs: seq<string>, values: seq<Value>, sep: string)
    requires |values| == |segs|
    requires forall i :: 0 <= i < |segs| ==> values[i] == Str(segs[i])
    ensures ArrayJoin(values, sep) == Join(segs, sep)
  {
    var rendered := seq(|values|, i requires 0 <= i < |values| => JoinElement(values[i]));
    forall i | 0 <= i < |segs| ensures rendered[i] == segs[i] {
      assert rendered[i] == JoinElement(values[i]) == ToString(Str(segs[i]));
    }
    assert rendered == segs;
  }

  /** Splitting `/` and a join on `/` of separator-free parts gives an empty
      first chunk and the parts (or one more empty chunk for no parts). */
  lemma SplitRooted(segs: seq<string>)
    requires forall i :: 0 <= i < |segs| ==> '/' !in segs[i]
    ensures Split("/" + Join(segs, "/"), '/') == Rooted(segs)
  {
    var tail := Join(segs, "/");
    var out := "/" + tail;
    assert out[0] == '/' && out[1..] == tail;
    if segs != [] {
      SplitJoin(segs, '/');
    }
  }

  lemma NonEmptyDropsEmpty(chunks: seq<string>)
    ensures NonEmpty([""] + chunks) == NonEmpty(chunks)
  {
    var all := [""] + chunks;
    assert all[0] == "" && all[1..] == chunks;
  }

  /** The chunks of `/` followed by a join on `/`: an empty first chunk, then the
      parts, or one more empty chunk for no parts. */
  function Rooted(segs: seq<string>): seq<string>
  {
    [""] + (if segs == [] then [""] else segs)
  }

  lemma RootedTrimmed(segs: seq<string>)
    requires forall i :: 0 <= i < |segs| ==> Trimmed(segs[i])
    ensures TrimAll(Rooted(segs)) == Rooted(segs)
  {
    var rest := if segs == [] then [""] else segs;
    assert forall i :: 0 <= i < |rest| ==> Trimmed(rest[i]);
    TrimAllTrimmed(rest);
    TrimOfTrimmed("");
    TrimAllCons("", rest);
    assert Rooted(segs) == [""] + rest;
    assert TrimAll([""] + rest) == [Trim("")] + TrimAll(rest);
  }

  lemma RootedNonEmpty(segs: seq<string>)
    requires forall i :: 0 <= i < |segs| ==> segs[i] != ""
    ensures NonEmpty(Rooted(segs)) == segs
  {
    var rest := if segs == [] then [""] else segs;
    NonEmptyDropsEmpty(rest);
    if segs == [] {
      NonEmptyDropsEmpty([]);
    } else {
      NonEmptyAll(segs);
    }
  }

  /** `/` followed by the segments joined by `/` has those very segments. */
  lemma SegmentsOfJoined(segs: seq<string>)
    requires forall i :: 0 <= i < |segs| ==> segs[i] != "" && Trimmed(segs[i]) && '/' !in segs[i]
    ensures Segments("/" + Join(segs, "/")) == segs
  {
    SplitRooted(segs);
    RootedTrimmed(segs);
    RootedNonEmpty(segs);
  }

  /** Chunks without placeholders substitute to themselves. */
  lemma StaticJoin(params: Value, path: string, chunks: seq<string>)
    requires forall i :: 0 <= i < |chunks| ==> !IsPlaceholder(chunks[i])
    ensures ReplaceAll(params, path, chunks).Ok?
    ensures ArrayJoin(ReplaceAll(params, path, chunks).value, "/") == Join(chunks, "/")
  {
    ReplaceAllBound(params, path, chunks);
    ReplaceAllValues(params, path, chunks);
    ArrayJoinStrings(chunks, ReplaceAll(params, path, chunks).value, "/");
  }

  /** A template without placeholders comes out as `/` and its trimmed,
      non-empty segments joined by `/`, whatever the parameters. */
  lemma StaticPath(path: string, params: Value)
    requires NoPlaceholders(path)
    ensures WithRouteParams(path, params) == Ok("/" + Join(Segments(path), "/"))
  {
    var segs := Segments(path);
    StaticJoin(params, path, segs);
    var r := ReplaceAll(params, path, segs);
    assert r.Ok? && ArrayJoin(r.value, "/") == Join(segs, "/");
    BuiltPath(path, params);
  }

  /** A path whose substitution succeeds is `/` and the joined values. */
  lemma BuiltPath(path: string, params: Value)
    requires ReplaceAll(params, path, Segments(path)).Ok?
    ensures WithRouteParams(path, params) == Ok("/" + ArrayJoin(ReplaceAll(params, path, Segments(path)).value, "/"))
  {
  }

  /** Building a path without placeholders again changes nothing: the built
      path has the same segments and builds to itself. */
  lemma StaticRoute(path: string, params: Value, again: Value)
    requires NoPlaceholders(path)
    ensures var out := "/" + Join(Segments(path), "/");
      && WithRouteParams(path, params) == Ok(out)
      && Segments(out) == Segments(path)
      && WithRouteParams(out, again) == Ok(out)
  {
    var segs := Segments(path);
    var out := "/" + Join(segs, "/");
    StaticPath(path, params);
    SegmentsShape(path);
    SegmentsOfJoined(segs);
    assert Segments(out) == segs;
    assert NoPlaceholders(out);
    StaticPath(out, again);
  }

  // ======================================================================
  // makeQueryUrl

  /** `endpoints[chunks[0]][chunks[1]]` for a dotted route, `endpoints[route]`
      for an undotted one; further chunks are ignored. `split` always yields at
      least one chunk, so the `null` branch of the source cannot be taken. */
  function ResolveEndpoint(endpoints: Value, route: string): Result<Value>
  {
    var chunks := Split(route, '.');
    if |chunks| > 1 then
      var group :- Get(endpoints, chunks[0]);
      Get(group, chunks[1])
    else Get(endpoints, chunks[0])
  }

  /** A route without a dot names an endpoint directly. */
  lemma ResolveUndotted(endpoints: Value, route: string)
    requires '.' !in route
    ensures ResolveEndpoint(endpoints, route) == Get(endpoints, route)
  {
    SplitJoin([route], '.');
    assert Join([route], ".") == route;
  }

  /** A route `group.name` reads `endpoints[group][name]`, throwing if the group
      cannot be read. */
  lemma ResolveDotted(endpoints: Value, group: string, name: string)
    requires '.' !in group && '.' !in name
    ensures var g := Get(endpoints, group);
      && (g.Throw? ==> ResolveEndpoint(endpoints, group + "." + name) == Throw(g.error))
      && (g.Ok? ==> ResolveEndpoint(endpoints, group + "." + name) == Get(g.value, name))
  {
    SplitJoin([group, name], '.');
    assert Join([group, name], ".") == group + "." + name;
  }

  /** The path template of a route: the endpoint must be truthy, else the route
      is unknown, and a string, else `split` is not a function. */
  function RouteTemplate(api: Value, route: string): (r: Result<string>)
    requires !api.Undefined? && !api.Null?
    ensures var e := ResolveEndpoint(Get(api, "endpoints").value, route);
      && (r.Ok? <==> e.Ok? && e.value.Str? && e.value.s != "")
      && (r.Ok? ==> e.value == Str(r.value))
      && (e.Throw? ==> r == Throw(e.error))
      && (e.Ok? && !Truthy(e.value) ==> r == Throw(UnknownRoute(route)))
    ensures r.Ok? ==> r.value != ""
  {
    var endpoints := Get(api, "endpoints").value;
    var endpoint :- ResolveEndpoint(endpoints, route);
    if !Truthy(endpoint) then Throw(UnknownRoute(route))
    else if !endpoint.Str? then Throw(TypeError("path.split is not a function"))
    else Ok(endpoint.s)
  }

  /** The encoded query of `makeQueryUrl`: only truthy query parameters are encoded. */
  function QueryString(queryParams: Value): (r: Result<string>)
    ensures !Truthy(queryParams) ==> r == Ok("")
    ensures Truthy(queryParams) ==> r == EncodeQueryParams(queryParams)
  {
    if Truthy(queryParams) then EncodeQueryParams(queryParams) else Ok("")
  }

  /** What follows the path: `?` and the query, or nothing for an empty query. */
  function QuerySuffix(query: string): (r: string)
    ensures r == "" <==> query == ""
    ensures r != "" ==> r[0] == '?' && r[1..] == query
  {
    if query != "" then "?" + query else ""
  }

  /** `makeQueryUrl(route, routeParams, queryParams)` against `config`;
      `routeParams` defaults to `{}`. */
  function MakeQueryUrl(config: seq<Prop>, route: string, routeParams: Value, queryParams: Value): Result<string>
  {
    var api := Config.GetConfig("api", config);
    var host := Get(api, "host").value;
    var template :- RouteTemplate(api, route);
    var base :- WithRouteParams(template, if routeParams.Undefined? then Obj([]) else routeParams);
    var query :- QueryString(queryParams);
    Ok(ToString(host) + base + QuerySuffix(query))
  }

  /** The URL is the host, then the substituted template (which starts with
      `/`), then the query suffix, which is empty for an empty or absent query
      and otherwise `?` and the encoded query. */
  lemma QueryUrlShape(config: seq<Prop>, route: string, routeParams: Value, queryParams: Value)
    requires MakeQueryUrl(config, route, routeParams, queryParams).Ok?
    ensures var api := Config.GetConfig("api", config);
      var host := ToString(Get(api, "host").value);
      var template := RouteTemplate(api, route);
      var base := WithRouteParams(template.value, if routeParams.Undefined? then Obj([]) else routeParams);
      var query := QueryString(queryParams);
      var url := MakeQueryUrl(config, route, routeParams, queryParams).value;
      && template.Ok? && base.Ok? && query.Ok?
      && base.value[0] == '/'
      && url == host + base.value + QuerySuffix(query.value)
      && (!Truthy(queryParams) ==> url == host + base.value)
      && (Truthy(queryParams) ==>
            (EncodeQueryParams(queryParams).Ok?
             && url == host + base.value + QuerySuffix(EncodeQueryParams(queryParams).value)))
  {
  }

  /** When the URL is built: exactly when the template resolves and its
      placeholders are all bound (the query part never throws, since `undefined`
      and `null` are falsy and so never encoded). The URL is then the host, the
      path and the query suffix; otherwise the first failing step's error. */
  lemma QueryUrlBuilt(config: seq<Prop>, route: string, routeParams: Value, queryParams: Value)
    ensures var api := Config.GetConfig("api", config);
      var t := RouteTemplate(api, route);
      var rp := if routeParams.Undefined? then Obj([]) else routeParams;
      var url := MakeQueryUrl(config, route, routeParams, queryParams);
      && QueryString(queryParams).Ok?
      && (url.Ok? <==> t.Ok? && WithRouteParams(t.value, rp).Ok?)
      && (t.Throw? ==> url == Throw(t.error))
      && (t.Ok? && WithRouteParams(t.value, rp).Throw? ==> url == Throw(WithRouteParams(t.value, rp).error))
      && (t.Ok? && WithRouteParams(t.value, rp).Ok? ==>
            url == Ok(ToString(Get(api, "host").value) + WithRouteParams(t.value, rp).value
                      + QuerySuffix(QueryString(queryParams).value)))
  {
    assert QueryString(queryParams).Ok?;
  }

  /** A route whose endpoint cannot be read throws what reading it throws; one
      that resolves to a falsy value throws the unknown-route error for it. */
  lemma UnresolvedRouteThrows(config: seq<Prop>, route: string, routeParams: Value, queryParams: Value)
    ensures var api := Config.GetConfig("api", config);
      var e := ResolveEndpoint(Get(api, "endpoints").value, route);
      var url := MakeQueryUrl(config, route, routeParams, queryParams);
      && (e.Throw? ==> url == Throw(e.error))
      && (e.Ok? && !Truthy(e.value) ==> url == Throw(UnknownRoute(route)))
  {
  }

  /** Only the first two dotted chunks of a route are looked at. */
  lemma {:induction false} TwoChunksOnly(endpoints: Value, group: string, name: string, rest: string)
    requires '.' !in group && '.' !in name
    ensures ResolveEndpoint(endpoints, group + "." + name + "." + rest)
      == ResolveEndpoint(endpoints, group + "." + name)
  {
    var long := group + "." + name + "." + rest;
    var short := group + "." + name;
    assert long == group + ("." + (name + ("." + rest)));
    assert short == group + ("." + (name + ""));
    SplitPrefix(group, "." + (name + ("." + rest)), '.');
    SplitPrefix(group, "." + (name + ""), '.');
    assert ("." + (name + ("." + rest)))[1..] == name + ("." + rest);
    assert ("." + (name + ""))[1..] == name + "";
    SplitPrefix(name, "." + rest, '.');
    SplitPrefix(name, "", '.');
    assert ("." + rest)[1..] == rest;
    var sl := Split(long, '.');
    var ss := Split(short, '.');
    assert |sl| > 1 && |ss| > 1;
    assert sl[0] == group + "" && ss[0] == group + "";
    assert sl[1] == name + "" && ss[1] == name + "";
  }

  // ======================================================================
  // makeQuery: the request record

  /** `{queryParams, routeParams, bodyParams}` once destructured. */
  datatype TypedParams = TypedParams(query: Value, route: Value, body: Value)

  /** `getTypedParams(method, params, mapParams)`: a mapping function's result if
      it is of type object (anything else reads as `{}`), otherwise the
      convention GET puts `params` in the query and every other verb in the
      body. */
  function GetTypedParams(verb: string, params: Value, mapParams: Option<Value -> Value>): (r: Value)
    ensures IsObjectType(r)
  {
    match mapParams
    case Some(f) =>
      var mapped := f(params);
      if IsObjectType(mapped) then mapped else Obj([])
    case None =>
      if verb == "GET" then Obj([Prop("queryParams", params)]) else Obj([Prop("bodyParams", params)])
  }

  /** `const {queryParams, routeParams, bodyParams} = typedParams`,
      which throws on `null`. */
  function Destructure(typed: Value): (r: Result<TypedParams>)
    ensures r.Throw? <==> typed.Undefined? || typed.Null?
  {
    var query :- Get(typed, "queryParams");
    Ok(TypedParams(query, Get(typed, "routeParams").value, Get(typed, "bodyParams").value))
  }

  datatype Header = Header(name: string, value: string)

  /** `{url, method, headers?, body?}` as passed to the HTTP client (`verb` is its `method`). */
  datatype Request = Request(url: string, verb: string, headers: Option<seq<Header>>, body: Option<Value>)

  /** `withContent(method, bodyParams)`, as the condition it is used for. */
  predicate WithContent(verb: string, body: Value)
  {
    Truthy(body) && (verb == "POST" || verb == "PUT")
  }

  /** `makeHeaders(method, token, bodyParams)`: the authorisation header for a
      truthy token, then the JSON content type where `WithContent` holds; no
      headers at all when neither applies. */
  function MakeHeaders(verb: string, token: Value, body: Value): Option<seq<Header>>
  {
    var auth := if Truthy(token) then [Header("Authorization", "Bearer " + ToString(token))] else [];
    var content := if WithContent(verb, body) then [Header("Content-Type", "application/json")] else [];
    if auth != [] || content != [] then Some(auth + content) else None
  }

  /** `makeBody(bodyParams)`. */
  function MakeBody(body: Value): Option<Value>
  {
    if Truthy(body) then Some(body) else None
  }

  /** `makeQuery(method, route, mapParams)(params, token)` up to the call of the
      HTTP client: the request record, or what is thrown building it. */
  function MakeQuery(config: seq<Prop>, verb: string, route: string, mapParams: Option<Value -> Value>,
                     params: Value, token: Value): Result<Request>
  {
    var typed :- Destructure(GetTypedParams(verb, params, mapParams));
    var url :- MakeQueryUrl(config, route, typed.route, typed.query);
    Ok(Request(url, verb, MakeHeaders(verb, token, typed.body), MakeBody(typed.body)))
  }

  /** The value of the first header named `name`. */
  function FindHeader(hs: seq<Header>, name: string): Option<string>
  {
    if hs == [] then None
    else if hs[0].name == name then Some(hs[0].value)
    else FindHeader(hs[1..], name)
  }

  /** The value of a header, if the request has one. */
  function HeaderValue(headers: Option<seq<Header>>, name: string): Option<string>
  {
    match headers
    case None => None
    case Some(hs) => FindHeader(hs, name)
  }

  /** The headers of a request: `Authorization: Bearer <token>` exactly when a
      token is given, `Content-Type: application/json` exactly when there is a
      body and the verb is POST or PUT, and no `headers` key when neither. */
  lemma HeaderRules(verb: string, token: Value, body: Value)
    ensures var hs := MakeHeaders(verb, token, body);
      && (hs.None? <==> !Truthy(token) && !WithContent(verb, body))
      && HeaderValue(hs, "Authorization") == (if Truthy(token) then Some("Bearer " + ToString(token)) else None)
      && HeaderValue(hs, "Content-Type") == (if WithContent(verb, body) then Some("application/json") else None)
  {
    var hs := MakeHeaders(verb, token, body);
    var auth, ct := "Authorization", "Content-Type";
    assert auth != ct by { assert auth[0] != ct[0]; }
    var a := Header(auth, "Bearer " + ToString(token));
    var c := Header(ct, "application/json");
    if Truthy(token) && WithContent(verb, body) {
      assert hs == Some([a] + [c]);
      assert ([a] + [c])[1..] == [c];
      assert FindHeader([a] + [c], ct) == FindHeader([c], ct);
    } else if Truthy(token) {
      assert hs == Some([a] + []);
      assert ([a] + [])[1..] == [];
      assert FindHeader([a] + [], ct) == FindHeader([], ct);
    } else if WithContent(verb, body) {
      assert hs == Some([] + [c]);
      assert ([] + [c]) == [c] && [c][1..] == [];
      assert FindHeader([c], auth) == FindHeader([], auth);
    } else {
      assert hs == None;
    }
  }

  /** The request record of one call. */
  lemma RequestRules(config: seq<Prop>, verb: string, route: string, mapParams: Option<Value -> Value>,
                     params: Value, token: Value)
    requires MakeQuery(config, verb, route, mapParams, params, token).Ok?
    ensures var typed := Destructure(GetTypedParams(verb, params, mapParams)).value;
      var r := MakeQuery(config, verb, route, mapParams, params, token).value;
      && r.url == MakeQueryUrl(config, route, typed.route, typed.query).value
      && r.verb == verb
      && r.headers == MakeHeaders(verb, token, typed.body)
      && (r.body.Some? <==> Truthy(typed.body))
      && (r.body.Some? ==> r.body.value == typed.body)
  {
  }

  /** When the request is built: exactly when the parameters destructure and
      the URL is built from them, and then with that URL; otherwise the first
      failing step's error. */
  lemma RequestBuilt(config: seq<Prop>, verb: string, route: string, mapParams: Option<Value -> Value>,
                     params: Value, token: Value)
    ensures var d := Destructure(GetTypedParams(verb, params, mapParams));
      var r := MakeQuery(config, verb, route, mapParams, params, token);
      && (r.Ok? <==> d.Ok? && MakeQueryUrl(config, route, d.value.route, d.value.query).Ok?)
      && (d.Throw? ==> r == Throw(d.error))
      && (d.Ok? && MakeQueryUrl(config, route, d.value.route, d.value.query).Throw? ==>
            r == Throw(MakeQueryUrl(config, route, d.value.route, d.value.query).error))
      && (r.Ok? ==> r.value.url == MakeQueryUrl(config, route, d.value.route, d.value.query).value)
  {
  }

  /** With a mapping function, its result decides the parameters: an object or
      an array is destructured, `null` makes the destructuring throw, and any
      other value reads as `{}`, so all three parts are `undefined`. */
  lemma MappedPlacement(verb: string, params: Value, f: Value -> Value)
    ensures var m := f(params);
      var typed := Destructure(GetTypedParams(verb, params, Some(f)));
      && ((m.Obj? || m.Arr?) ==>
            typed == Ok(TypedParams(Get(m, "queryParams").value, Get(m, "routeParams").value, Get(m, "bodyParams").value)))
      && (m.Null? ==> typed.Throw?)
      && (!IsObjectType(m) ==> typed == Ok(TypedParams(Undefined, Undefined, Undefined)))
  {
  }

  /** The headers are at most the authorisation and the content type, each
      once, as the keys of an object are. */
  lemma HeaderNames(verb: string, token: Value, body: Value)
    ensures var hs := MakeHeaders(verb, token, body);
      hs.Some? ==>
        (&& |hs.value| <= 2
         && (forall h :: h in hs.value ==> h.name == "Authorization" || h.name == "Content-Type")
         && (|hs.value| == 2 ==> hs.value[0].name != hs.value[1].name))
  {
    var auth, ct := "Authorization", "Content-Type";
    assert auth != ct by { assert auth[0] != ct[0]; }
  }

  /** Without a mapping function, GET sends `params` as the query and every
      other verb as the body; nothing goes into the route. */
  lemma DefaultPlacement(verb: string, params: Value)
    ensures var typed := Destructure(GetTypedParams(verb, params, None));
      typed == if verb == "GET" then Ok(TypedParams(params, Undefined, Undefined))
               else Ok(TypedParams(Undefined, Undefined, params))
  {
    var q, r, b := "queryParams", "routeParams", "bodyParams";
    assert q != r by { assert q[0] != r[0]; }
    assert b != r by { assert b[0] != r[0]; }
    assert q != b by { assert q[0] != b[0]; }
  }
}
