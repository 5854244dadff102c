/** The image-list normalisation that the goods and the nanum `create`
    handlers share: the request's `images` value becomes the list of URLs
    stored in the image table. */
module ImageList {
  import opened Common

  /** A JavaScript value as it arrives in a JSON request body.  `ObjV`
      stands for a plain object and keeps only its `url` property
      (`Undefined` when it has none); `NumV` holds integer numbers. */
  datatype Val =
    | Undefined
    | Null
    | BoolV(b: bool)
    | NumV(n: int)
    | StrV(s: string)
    | ObjV(url: Val)
    | ArrV(items: seq<Val>)

  /** JavaScript truthiness (`NaN` is not among the modelled numbers). */
  predicate Truthy(v: Val)
  {
    match v
    case Undefined => false
    case Null => false
    case BoolV(b) => b
    case NumV(n) => n != 0
    case StrV(s) => s != ""
    case ObjV(_) => true
    case ArrV(_) => true
  }

  /** `String(v)`.  An array is joined with commas, its `null` and
      `undefined` elements showing as empty. */
  function ToJsString(v: Val): string
  {
    match v
    case Undefined => "undefined"
    case Null => "null"
    case BoolV(b) => if b then "true" else "false"
    case NumV(n) => if n < 0 then "-" + NatToString(-n) else NatToString(n)
    case StrV(s) => s
    case ObjV(_) => "[object Object]"
    case ArrV(items) => JoinItems(items)
  }

  function JoinItems(items: seq<Val>): string
  {
    if items == [] then ""
    else
      var first := if items[0].Undefined? || items[0].Null? then "" else ToJsString(items[0]);
      if |items| == 1 then first else first + "," + JoinItems(items[1..])
  }

  /** `s.split(",")`: the pieces between the commas, in order, empty ones
      included; there is always at least one. */
  function Split(s: string): (r: seq<string>)
    ensures |r| >= 1
    ensures forall i :: 0 <= i < |r| ==> ',' !in r[i]
  {
    if s == [] then [""]
    else
      var rest := Split(s[1..]);
      if s[0] == ',' then [""] + rest else [[s[0]] + rest[0]] + rest[1..]
  }

  /** `pieces.join(",")`. */
  function Join(pieces: seq<string>): string
  {
    if pieces == [] then "" else if |pieces| == 1 then pieces[0] else pieces[0] + "," + Join(pieces[1..])
  }

  /** Splitting on commas loses nothing: joining the pieces back gives the
      string. */
  lemma {:induction false} SplitJoin(s: string)
    ensures Join(Split(s)) == s
  {
    if s != [] {
      var rest := Split(s[1..]);
      SplitJoin(s[1..]);
      if s[0] == ',' {
        assert Join([""] + rest) == "" + "," + Join(rest);
        assert s == [','] + s[1..];
      } else {
        var r := [[s[0]] + rest[0]] + rest[1..];
        if |rest| == 1 {
          assert Join(r) == [s[0]] + rest[0];
          assert s == [s[0]] + s[1..];
        } else {
          assert r[1..] == rest[1..];
          assert Join(r) == ([s[0]] + rest[0]) + "," + Join(rest[1..]);
          assert Join(rest) == rest[0] + "," + Join(rest[1..]);
          assert s == [s[0]] + s[1..];
        }
      }
    }
  }

  /** A string without commas is one piece. */
  lemma {:induction false} SplitNoComma(s: string)
    requires ',' !in s
    ensures Split(s) == [s]
  {
    if s != [] {
      SplitNoComma(s[1..]);
      assert s == [s[0]] + s[1..];
    }
  }

  /** `img => typeof img === 'object' ? img.url : img` over an array.  For
      `null`, whose `typeof` is also `'object'`, reading `.url` throws a
      TypeError: the result is `None`. */
  function UrlsOf(items: seq<Val>): (r: Option<seq<Val>>)
    ensures r.None? <==> Null in items
    ensures r.Some? ==> |r.value| == |items|
    ensures r.Some? ==> forall i :: 0 <= i < |items| ==>
              r.value[i] == match items[i] case ObjV(u) => u case ArrV(_) => Undefined case _ => items[i]
  {
    if items == [] then Some([])
    else if items[0].Null? then None
    else
      var rest := UrlsOf(items[1..]);
      if rest.None? then None
      else
        var head := match items[0] case ObjV(u) => u case ArrV(_) => Undefined case _ => items[0];
        Some([head] + rest.value)
  }

  /** `url && String(url).indexOf('[object Object]') === -1`. */
  predicate Kept(v: Val)
  {
    Truthy(v) && !Contains(ToJsString(v), "[object Object]")
  }

  /** `.filter(Kept).map(url => String(url).trim())`. */
  function KeepAndTrim(list: seq<Val>): (r: seq<string>)
    ensures |r| <= |list|
  {
    if list == [] then []
    else (if Kept(list[0]) then [Trim(ToJsString(list[0]))] else []) + KeepAndTrim(list[1..])
  }

  /** The stored URLs are exactly the trimmed string forms of the kept
      entries. */
  lemma {:induction false} KeepAndTrimMembers(list: seq<Val>, u: string)
    ensures u in KeepAndTrim(list) <==> exists v :: v in list && Kept(v) && u == Trim(ToJsString(v))
  {
    if list != [] {
      KeepAndTrimMembers(list[1..], u);
      if u in KeepAndTrim(list[1..]) {
        var v :| v in list[1..] && Kept(v) && u == Trim(ToJsString(v));
        assert v in list;
      }
      if exists v :: v in list && Kept(v) && u == Trim(ToJsString(v)) {
        var v :| v in list && Kept(v) && u == Trim(ToJsString(v));
        if v != list[0] {
          assert v in list[1..];
        }
      }
    }
  }

  /** The URL list built from the request's `images`: `None` when building
      it throws, `Some([])` when there is nothing to insert. */
  function NormalizeImages(images: Val): (r: Option<seq<string>>)
    ensures r.None? <==> images.ArrV? && Null in images.items
  {
    match images
    case ArrV(items) =>
      var urls := UrlsOf(items);
      if urls.None? then None else Some(KeepAndTrim(urls.value))
    case StrV(s) =>
      if s == "" then Some([]) else Some(KeepAndTrim(StrPieces(Split(s))))
    case _ => Some([])
  }

  function StrPieces(pieces: seq<string>): (r: seq<Val>)
    ensures |r| == |pieces|
    ensures forall i :: 0 <= i < |r| ==> r[i] == StrV(pieces[i])
  {
    seq(|pieces|, i requires 0 <= i < |pieces| => StrV(pieces[i]))
  }

  /** Trimming keeps a piece of its input, so a string without the marker
      does not gain it. */
  lemma TrimKeepsMarkerOut(s: string)
    requires !Contains(s, "[object Object]")
    ensures !Contains(Trim(s), "[object Object]")
  {
    TrimIsSlice(s);
    var a := |s| - |TrimStart(s)|;
    ContainsSlice(s, a, a + |Trim(s)|, "[object Object]");
  }

  /** Whatever occurs in a slice occurs in the string. */
  lemma {:induction false} ContainsSlice(s: string, i: int, j: int, t: string)
    requires 0 <= i <= j <= |s|
    ensures Contains(s[i..j], t) ==> Contains(s, t)
    decreases i, j - i
  {
    if i > 0 {
      ContainsSlice(s[1..], i - 1, j - 1, t);
      assert s[1..][i - 1..j - 1] == s[i..j];
    } else if Contains(s[..j], t) {
      if StartsWith(s[..j], t) {
        assert s[..|t|] == s[..j][..|t|];
      } else {
        assert s[..j][1..] == s[1..][0..j - 1];
        ContainsSlice(s[1..], 0, j - 1, t);
      }
    }
  }

  /** Every stored URL is trimmed, non-empty when its source was a
      non-blank string, and free of the `[object Object]` marker. */
  lemma {:induction false} NormalizedUrlsClean(list: seq<Val>)
    ensures forall i :: 0 <= i < |KeepAndTrim(list)| ==>
              var u := KeepAndTrim(list)[i];
              && !Contains(u, "[object Object]")
              && (u == [] || (!IsSpace(u[0]) && !IsSpace(u[|u| - 1])))
  {
    if list != [] {
      NormalizedUrlsClean(list[1..]);
      if Kept(list[0]) {
        TrimKeepsMarkerOut(ToJsString(list[0]));
        TrimIsSlice(ToJsString(list[0]));
      }
    }
  }

  /** The frontend's array of `{ url }` objects with clean URLs is stored
      as sent. */
  lemma {:induction false} ObjectUrlsStoredAsSent(urls: seq<string>)
    requires forall i :: 0 <= i < |urls| ==> urls[i] != [] && Trim(urls[i]) == urls[i]
    requires forall i :: 0 <= i < |urls| ==> !Contains(urls[i], "[object Object]")
    ensures NormalizeImages(ArrV(seq(|urls|, i requires 0 <= i < |urls| => ObjV(StrV(urls[i]))))) == Some(urls)
  {
    var items := seq(|urls|, i requires 0 <= i < |urls| => ObjV(StrV(urls[i])));
    var vals := seq(|urls|, i requires 0 <= i < |urls| => StrV(urls[i]));
    assert Null !in items;
    assert UrlsOf(items).value == vals;
    AllKeptTrimmed(urls);
  }

  lemma {:induction false} AllKeptTrimmed(urls: seq<string>)
    requires forall i :: 0 <= i < |urls| ==> urls[i] != [] && Trim(urls[i]) == urls[i]
    requires forall i :: 0 <= i < |urls| ==> !Contains(urls[i], "[object Object]")
    ensures KeepAndTrim(seq(|urls|, i requires 0 <= i < |urls| => StrV(urls[i]))) == urls
  {
    var vals := seq(|urls|, i requires 0 <= i < |urls| => StrV(urls[i]));
    if urls != [] {
      AllKeptTrimmed(urls[1..]);
      assert vals[1..] == seq(|urls[1..]|, i requires 0 <= i < |urls[1..]| => StrV(urls[1..][i]));
      assert Kept(vals[0]);
      assert urls == [urls[0]] + urls[1..];
    }
  }

  /** A comma-separated string of clean URLs is stored piece by piece. */
  lemma CommaStringStoredPieceByPiece(s: string)
    requires s != ""
    requires forall i :: 0 <= i < |Split(s)| ==> Split(s)[i] != [] && Trim(Split(s)[i]) == Split(s)[i]
    requires forall i :: 0 <= i < |Split(s)| ==> !Contains(Split(s)[i], "[object Object]")
    ensures NormalizeImages(StrV(s)) == Some(Split(s))
    ensures Join(NormalizeImages(StrV(s)).value) == s
  {
    var pieces := Split(s);
    assert StrPieces(pieces) == seq(|pieces|, i requires 0 <= i < |pieces| => StrV(pieces[i]));
    AllKeptTrimmed(pieces);
    SplitJoin(s);
  }
}
