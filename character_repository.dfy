/** `CharacterRepository.kt`: the character list read from a JSON asset, each entry a name,
    a band, a colour and an image path. The asset and the JSON library are outside the model;
    an entry arrives as the four strings `optString` yields (missing fields already `""`), or
    as `None` where `optJSONObject` finds no object. */
module CharacterRepository {
  import opened Wrappers
  import opened KotlinStd

  datatype CharacterColor = CharacterColor(name: string, band: string, hex: string, image: string)

  /** One element of the `items` array as `optString(key, "")` reads its four fields. */
  datatype RawItem = RawItem(name: string, band: string, color: string, image: string)

  /** The colour an entry gets when its own is missing or malformed. */
  const DEFAULT_HEX: string := "#FF66AA"

  const ASSET_PREFIX: string := "file:///android_asset/"

  // ---------------------------------------------------------------- image paths

  /** A path that is already a URL the image loader understands. */
  predicate IsUrl(s: string) {
    StartsWith(s, "http://") || StartsWith(s, "https://") || StartsWith(s, "file://")
  }

  /** `resolveImagePath`: blank is `null`; a URL is kept (trimmed); anything else is an asset
      path, with one leading `/` and then one leading `assets/` dropped. */
  function ResolveImagePath(raw: string): (r: Option<string>)
    ensures r.None? <==> Trim(raw) == []
    ensures r.Some? && IsUrl(Trim(raw)) ==> r.value == Trim(raw)
    ensures r.Some? && !IsUrl(Trim(raw)) ==>
      exists cleaned: string {:trigger ASSET_PREFIX + cleaned} ::
        r.value == ASSET_PREFIX + cleaned && AssetSpelling(Trim(raw), cleaned)
    ensures r.Some? && !IsUrl(Trim(raw)) ==>
      r.value == ASSET_PREFIX + RemovePrefix(RemovePrefix(Trim(raw), "/"), "assets/")
    ensures r.Some? ==> IsUrl(r.value) && Trim(r.value) == r.value
  {
    var trimmed := Trim(raw);
    if IsBlank(trimmed) then
      TrimmedBlankIsEmpty(raw);
      None
    else if IsUrl(trimmed) then
      TrimKeeps(trimmed);
      Some(trimmed)
    else
      var cleaned := RemovePrefix(RemovePrefix(trimmed, "/"), "assets/");
      AssetBranch(trimmed, cleaned);
      Some(ASSET_PREFIX + cleaned)
  }

  /** The asset branch: `cleaned` is a spelling of the trimmed path, and its URL is trimmed. */
  lemma AssetBranch(trimmed: string, cleaned: string)
    requires trimmed != [] && !IsWhitespace(trimmed[|trimmed| - 1])
    requires cleaned == RemovePrefix(RemovePrefix(trimmed, "/"), "assets/")
    ensures AssetSpelling(trimmed, cleaned)
    ensures IsUrl(ASSET_PREFIX + cleaned) && Trim(ASSET_PREFIX + cleaned) == ASSET_PREFIX + cleaned
  {
    assert "/" + ("assets/" + cleaned) == "/assets/" + cleaned;
    AssetUrl(trimmed, cleaned);
  }

  /** `cleaned` is `t` with at most a leading `/` and a leading `assets/` taken off. */
  predicate AssetSpelling(t: string, cleaned: string) {
    t == cleaned || t == "/" + cleaned || t == "assets/" + cleaned || t == "/assets/" + cleaned
  }

  /** An asset URL built from a trimmed path is a URL and is itself trimmed. */
  lemma AssetUrl(t: string, cleaned: string)
    requires t != [] && !IsWhitespace(t[|t| - 1]) && AssetSpelling(t, cleaned)
    ensures IsUrl(ASSET_PREFIX + cleaned) && Trim(ASSET_PREFIX + cleaned) == ASSET_PREFIX + cleaned
  {
    var u := ASSET_PREFIX + cleaned;
    assert u[..7] == "file://";
    assert u[0] == 'f';
    if cleaned != [] {
      assert u[|u| - 1] == cleaned[|cleaned| - 1] == t[|t| - 1];
    } else {
      assert u[|u| - 1] == '/';
    }
    TrimKeeps(u);
  }

  /** Resolving twice is resolving once: every result is a trimmed URL, and those are kept. */
  lemma ResolveIdempotent(raw: string)
    requires ResolveImagePath(raw).Some?
    ensures ResolveImagePath(ResolveImagePath(raw).value) == ResolveImagePath(raw)
  {
    UrlResolvesToItself(ResolveImagePath(raw).value);
  }

  lemma UrlResolvesToItself(u: string)
    requires IsUrl(u) && Trim(u) == u
    ensures ResolveImagePath(u) == Some(u)
  {
    assert |u| >= 7;
  }

  /** An asset name written bare, with `assets/`, or with `/assets/` in front resolves to the
      same asset URL. */
  lemma AssetSpellings(name: string)
    requires name != [] && !IsWhitespace(name[0]) && !IsWhitespace(name[|name| - 1])
    requires !StartsWith(name, "/") && !StartsWith(name, "assets/") && !IsUrl(name)
    ensures ResolveImagePath(name) == Some(ASSET_PREFIX + name)
    ensures ResolveImagePath("assets/" + name) == Some(ASSET_PREFIX + name)
    ensures ResolveImagePath("/assets/" + name) == Some(ASSET_PREFIX + name)
  {
    TrimKeeps(name);
    ResolvesTo(name, name);
    AssetsPrefixed(name);
    RootedAssetsPrefixed(name);
  }

  lemma AssetsPrefixed(name: string)
    requires name != [] && !IsWhitespace(name[|name| - 1])
    ensures ResolveImagePath("assets/" + name) == Some(ASSET_PREFIX + name)
  {
    var a := "assets/" + name;
    assert a[0] == 'a' && a[|a| - 1] == name[|name| - 1];
    TrimKeeps(a);
    assert a[..7] == "assets/" && a[7..] == name;
    NotUrl(a);
    ResolvesTo(a, name);
  }

  lemma RootedAssetsPrefixed(name: string)
    requires name != [] && !IsWhitespace(name[|name| - 1])
    ensures ResolveImagePath("/assets/" + name) == Some(ASSET_PREFIX + name)
  {
    var a := "assets/" + name;
    var b := "/" + a;
    assert b == "/assets/" + name;
    assert b[0] == '/' && b[|b| - 1] == name[|name| - 1];
    TrimKeeps(b);
    assert b[..1] == "/" && b[1..] == a;
    assert a[..7] == "assets/" && a[7..] == name;
    NotUrl(b);
    ResolvesTo(b, name);
  }

  /** A string starting with a character other than `h` or `f` is not a URL. */
  lemma NotUrl(t: string)
    requires t != [] && t[0] != 'h' && t[0] != 'f'
    ensures !IsUrl(t)
  {
    if |t| >= 7 {
      assert t[..7][0] == t[0];
    }
    if |t| >= 8 {
      assert t[..8][0] == t[0];
    }
  }

  /** A trimmed, non-URL path resolves to the asset URL of its cleaned form. */
  lemma ResolvesTo(t: string, cleaned: string)
    requires t != [] && Trim(t) == t && !IsUrl(t)
    requires RemovePrefix(RemovePrefix(t, "/"), "assets/") == cleaned
    ensures ResolveImagePath(t) == Some(ASSET_PREFIX + cleaned)
  {
    TrimmedBlankIsEmpty(t);
  }

  // ---------------------------------------------------------------- colours

  predicate IsHexDigit(c: char) {
    ('0' <= c <= '9') || ('a' <= c <= 'f') || ('A' <= c <= 'F')
  }

  predicate IsUpperHexDigit(c: char) {
    ('0' <= c <= '9') || ('A' <= c <= 'F')
  }

  /** `Regex("[0-9a-fA-F]{6}")` matched against the whole string. */
  predicate IsHex6(s: string) {
    |s| == 6 && forall i | 0 <= i < 6 :: IsHexDigit(s[i])
  }

  /** `Char.uppercaseChar()` on a hex digit. */
  function UpperHexChar(c: char): (u: char)
    requires IsHexDigit(c)
    ensures IsUpperHexDigit(u)
    ensures IsUpperHexDigit(c) ==> u == c
  {
    if 'a' <= c <= 'f' then (c as int - 32) as char else c
  }

  /** `String.uppercase()` on hex digits. */
  function UpperHex(s: string): (u: string)
    requires forall i | 0 <= i < |s| :: IsHexDigit(s[i])
    ensures |u| == |s| && forall i | 0 <= i < |s| :: u[i] == UpperHexChar(s[i])
  {
    seq(|s|, i requires 0 <= i < |s| => UpperHexChar(s[i]))
  }

  /** The digits of a colour once one leading `#` is dropped. */
  function HexBody(raw: string): string {
    if StartsWith(raw, "#") then raw[1..] else raw
  }

  /** A normalised colour: `#` and six upper-case hex digits. */
  predicate IsNormalHex(s: string) {
    |s| == 7 && s[0] == '#' && forall i | 1 <= i < 7 :: IsUpperHexDigit(s[i])
  }

  /** `normalizeHex`: `null` or blank gives `null`; otherwise one leading `#` is dropped, the
      rest must be exactly six hex digits, and the result is `#` with them upper-cased. */
  function NormalizeHex(input: Option<string>): (r: Option<string>)
    ensures r.Some? ==> IsNormalHex(r.value)
    ensures r.Some? <==> input.Some? && IsHex6(HexBody(Trim(input.value)))
    ensures r.Some? ==> forall i | 1 <= i < 7 ::
      UpperHexChar(HexBody(Trim(input.value))[i - 1]) == r.value[i]
  {
    match input
    case None => None
    case Some(text) =>
      var raw := Trim(text);
      if IsBlank(raw) then
        BlankNotHex(text);
        None
      else
        var value := HexBody(raw);
        if !IsHex6(value) then None
        else
          NormalForm(value);
          Some("#" + UpperHex(value))
  }

  /** A blank colour has no digits. */
  lemma BlankNotHex(text: string)
    requires IsBlank(Trim(text))
    ensures !IsHex6(HexBody(Trim(text)))
  {
    TrimmedBlankIsEmpty(text);
  }

  /** `#` and six upper-cased hex digits is a normalised colour. */
  lemma NormalForm(value: string)
    requires IsHex6(value)
    ensures IsNormalHex("#" + UpperHex(value))
    ensures forall i | 1 <= i < 7 :: ("#" + UpperHex(value))[i] == UpperHexChar(value[i - 1])
  {
  }

  /** A normalised colour normalises to itself. */
  lemma NormalizeHexIdempotent(s: string)
    requires IsNormalHex(s)
    ensures NormalizeHex(Some(s)) == Some(s)
  {
    TrimKeeps(s);
    assert StartsWith(s, "#");
    var body := s[1..];
    assert IsHex6(body);
    assert "#" + UpperHex(body) == s;
  }

  /** Case and one leading `#` do not matter: two spellings of the same six digits normalise
      alike. */
  lemma NormalizeHexIgnoresCase(a: string, b: string)
    requires IsHex6(a) && IsHex6(b)
    requires forall i | 0 <= i < 6 :: UpperHexChar(a[i]) == UpperHexChar(b[i])
    ensures NormalizeHex(Some(a)) == NormalizeHex(Some("#" + b))
  {
    var hb := "#" + b;
    HexTrims(a);
    HexTrims(hb);
    assert !StartsWith(a, "#") by {
      assert IsHexDigit(a[0]);
    }
    assert hb[..1] == "#" && hb[1..] == b;
    assert UpperHex(a) == UpperHex(b);
  }

  lemma HexTrims(s: string)
    requires |s| >= 1 && forall i | 0 <= i < |s| :: IsHexDigit(s[i]) || s[i] == '#'
    ensures Trim(s) == s
  {
    TrimKeeps(s);
  }

  // ---------------------------------------------------------------- the item list

  /** One element of `List(array.length()) { ... }`: an entry without an object or with a
      blank name is dropped; fields are trimmed, and a bad colour becomes `#FF66AA`. */
  function ToCharacter(item: Option<RawItem>): (c: Option<CharacterColor>)
    ensures c.Some? <==> item.Some? && Trim(item.value.name) != []
    ensures c.Some? ==> c.value.name == Trim(item.value.name) && c.value.name != []
    ensures c.Some? ==> c.value.band == Trim(item.value.band) && c.value.image == Trim(item.value.image)
    ensures c.Some? ==> c.value.hex == ColorOf(item.value.color)
  {
    var name := if item.Some? then Trim(item.value.name) else "";
    TrimmedBlankIsEmpty(if item.Some? then item.value.name else "");
    if IsBlank(name) then None
    else
      var it := item.value;
      Some(CharacterColor(name, Trim(it.band), ColorOf(it.color), Trim(it.image)))
  }

  /** `normalizeHex(color) ?: "#FF66AA"`: always a normal colour, the entry's own when it has
      a valid one. */
  function ColorOf(color: string): (h: string)
    ensures IsNormalHex(h)
    ensures NormalizeHex(Some(color)).Some? ==> Some(h) == NormalizeHex(Some(color))
    ensures NormalizeHex(Some(color)).None? ==> h == DEFAULT_HEX
  {
    var hex := NormalizeHex(Some(color));
    if hex.Some? then hex.value
    else
      DefaultIsNormal();
      DEFAULT_HEX
  }

  lemma DefaultIsNormal()
    ensures IsNormalHex(DEFAULT_HEX)
  {
    assert DEFAULT_HEX[1] == 'F' && DEFAULT_HEX[2] == 'F' && DEFAULT_HEX[3] == '6';
    assert DEFAULT_HEX[4] == '6' && DEFAULT_HEX[5] == 'A' && DEFAULT_HEX[6] == 'A';
  }

  /** `filterNotNull()`: the present values, in order. */
  function FilterNotNull<T>(xs: seq<Option<T>>): (ys: seq<T>)
    ensures |ys| <= |xs|
  {
    if |xs| == 0 then []
    else (if xs[0].Some? then [xs[0].value] else []) + FilterNotNull(xs[1..])
  }

  /** A value survives `filterNotNull` exactly when it was present. */
  lemma {:induction false} FilterNotNullMembers<T>(xs: seq<Option<T>>, y: T)
    ensures y in FilterNotNull(xs) <==> Some(y) in xs
  {
    if |xs| > 0 {
      FilterNotNullMembers(xs[1..], y);
      assert xs == [xs[0]] + xs[1..];
    }
  }

  /** `filterNotNull` keeps order: filtering a concatenation concatenates the results. */
  lemma {:induction false} FilterNotNullAppend<T>(a: seq<Option<T>>, b: seq<Option<T>>)
    ensures FilterNotNull(a + b) == FilterNotNull(a) + FilterNotNull(b)
  {
    if |a| > 0 {
      assert (a + b)[1..] == a[1..] + b;
      FilterNotNullAppend(a[1..], b);
    } else {
      assert a + b == b;
    }
  }

  /** `List(n) { i -> f(xs[i]) }`: the entries mapped one by one, in order. */
  function MapSeq<T, U>(f: T -> U, xs: seq<T>): (m: seq<U>)
    ensures |m| == |xs| && forall i | 0 <= i < |xs| :: m[i] == f(xs[i])
  {
    seq(|xs|, i requires 0 <= i < |xs| => f(xs[i]))
  }

  lemma MapSeqAppend<T, U>(f: T -> U, a: seq<T>, b: seq<T>)
    ensures MapSeq(f, a + b) == MapSeq(f, a) + MapSeq(f, b)
  {
  }

  function Mapped(items: seq<Option<RawItem>>): seq<Option<CharacterColor>> {
    MapSeq(ToCharacter, items)
  }

  /** The character list `load` returns for the entries of `items`. */
  function Characters(items: seq<Option<RawItem>>): (cs: seq<CharacterColor>)
    ensures |cs| <= |items|
  {
    FilterNotNull(Mapped(items))
  }

  /** A character is in the list exactly when some entry maps to it; so every character has a
      non-blank name and a normal colour, and every named entry is represented. */
  lemma CharactersMembers(items: seq<Option<RawItem>>, c: CharacterColor)
    ensures c in Characters(items) <==> exists i | 0 <= i < |items| :: ToCharacter(items[i]) == Some(c)
    ensures c in Characters(items) ==> c.name != [] && IsNormalHex(c.hex)
  {
    FilterNotNullMembers(Mapped(items), c);
    if c in Characters(items) {
      var i :| 0 <= i < |items| && Mapped(items)[i] == Some(c);
    }
  }

  /** Every entry with a non-blank name yields its character. */
  lemma NamedEntryKept(items: seq<Option<RawItem>>, i: int)
    requires 0 <= i < |items| && items[i].Some? && Trim(items[i].value.name) != []
    ensures ToCharacter(items[i]).Some? && ToCharacter(items[i]).value in Characters(items)
  {
    CharactersMembers(items, ToCharacter(items[i]).value);
  }

  /** Entries keep their order: appending entries appends their characters. */
  lemma CharactersAppend(a: seq<Option<RawItem>>, b: seq<Option<RawItem>>)
    ensures Characters(a + b) == Characters(a) + Characters(b)
  {
    MapSeqAppend(ToCharacter, a, b);
    FilterNotNullAppend(Mapped(a), Mapped(b));
  }
}
