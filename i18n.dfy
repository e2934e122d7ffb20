/**
 * The language helpers: which interface language a URL path selects, and
 * which path selects a given language. The deployment's base path BASE is a
 * parameter `base` of both; NormalizeBase says how it is obtained from the
 * configured BASE_URL.
 */
module I18n {
  import opened Wrappers

  datatype Language = Language(name: string, path: string)

  /** The languages the application ships, by key. */
  const SupportedLanguages: map<string, Language> :=
    map["en" := Language("English", "/"), "ru" := Language("Русский", "/ru")]

  const DefaultLanguage: string := "en"

  /**
   * The names every plain JavaScript object inherits from Object.prototype:
   * the `in` operator reports these as present in any object literal.
   */
  const ObjectPrototypeMembers: set<string> := {
    "constructor", "hasOwnProperty", "isPrototypeOf", "propertyIsEnumerable",
    "toLocaleString", "toString", "valueOf", "__proto__",
    "__defineGetter__", "__defineSetter__", "__lookupGetter__", "__lookupSetter__"
  }

  predicate EndsWithSlash(s: string)
  {
    |s| > 0 && s[|s| - 1] == '/'
  }

  // ---------------------------------------------------------------------------
  // BASE
  // ---------------------------------------------------------------------------

  /** BASE_URL with one trailing slash removed, if it has one. */
  function NormalizeBase(baseUrl: string): (base: string)
    ensures EndsWithSlash(baseUrl) ==> base + "/" == baseUrl
    ensures !EndsWithSlash(baseUrl) ==> base == baseUrl
  {
    if EndsWithSlash(baseUrl) then baseUrl[..|baseUrl| - 1] else baseUrl
  }

  /**
   * Only one slash is removed: BASE still ends with '/' exactly when BASE_URL
   * ends with two of them.
   */
  lemma NormalizedBaseTrailingSlash(baseUrl: string)
    ensures EndsWithSlash(NormalizeBase(baseUrl))
        <==> |baseUrl| >= 2 && baseUrl[|baseUrl| - 1] == '/' && baseUrl[|baseUrl| - 2] == '/'
  {
    if EndsWithSlash(baseUrl) {
      var base := NormalizeBase(baseUrl);
      assert base + "/" == baseUrl;
      if |base| > 0 {
        assert base[|base| - 1] == baseUrl[|baseUrl| - 2];
      }
    }
  }

  /** The configured base of the deployment, and the base in the test environment. */
  lemma NormalizedBaseExamples()
    ensures NormalizeBase("/holy-grind/") == "/holy-grind"
    ensures NormalizeBase("/") == ""
    ensures NormalizeBase("//") == "/"
  {
  }

  // ---------------------------------------------------------------------------
  // Segments of a path
  // ---------------------------------------------------------------------------

  /** `s.split('/')`: the pieces between slashes, empty ones included. */
  function Split(s: string): (parts: seq<string>)
    ensures |parts| >= 1
    ensures forall k :: 0 <= k < |parts| ==> '/' !in parts[k]
  {
    if |s| == 0 then [""]
    else
      var rest := Split(s[1..]);
      if s[0] == '/' then [""] + rest
      else [[s[0]] + rest[0]] + rest[1..]
  }

  /** `parts.join('/')`. */
  function Join(parts: seq<string>): string
    requires |parts| >= 1
  {
    if |parts| == 1 then parts[0] else parts[0] + "/" + Join(parts[1..])
  }

  /** Joining the pieces of a split gives the string back. */
  lemma {:induction false} JoinSplit(s: string)
    ensures Join(Split(s)) == s
  {
    if |s| > 0 {
      var rest := Split(s[1..]);
      JoinSplit(s[1..]);
      if s[0] == '/' {
        assert Split(s) == [""] + rest;
        assert ([""] + rest)[1..] == rest;
      } else {
        var parts := [[s[0]] + rest[0]] + rest[1..];
        assert Split(s) == parts;
        if |rest| == 1 {
          assert Join(parts) == [s[0]] + rest[0] == [s[0]] + s[1..];
        } else {
          assert parts[1..] == rest[1..];
          assert Join(parts) == [s[0]] + rest[0] + "/" + Join(rest[1..]);
          assert Join(rest) == rest[0] + "/" + Join(rest[1..]);
        }
        assert [s[0]] + s[1..] == s;
      }
    }
  }

  /** A string without a slash is a single piece. */
  lemma {:induction false} SplitWithoutSlash(s: string)
    requires '/' !in s
    ensures Split(s) == [s]
  {
    if |s| > 0 {
      SplitWithoutSlash(s[1..]);
      assert [s[0]] + s[1..] == s;
    }
  }

  /** A piece without a slash followed by '/' splits off as the first piece. */
  lemma {:induction false} SplitAfterPiece(a: string, b: string)
    requires '/' !in a
    ensures Split(a + "/" + b) == [a] + Split(b)
  {
    if |a| == 0 {
      assert a + "/" + b == "/" + b;
      assert ("/" + b)[1..] == b;
    } else {
      SplitAfterPiece(a[1..], b);
      assert (a + "/" + b)[1..] == a[1..] + "/" + b;
      assert [a[0]] + a[1..] == a;
    }
  }

  /** Splitting the join of slash-free pieces gives the pieces back. */
  lemma {:induction false} SplitJoin(parts: seq<string>)
    requires |parts| >= 1
    requires forall k :: 0 <= k < |parts| ==> '/' !in parts[k]
    ensures Split(Join(parts)) == parts
  {
    if |parts| == 1 {
      SplitWithoutSlash(parts[0]);
    } else {
      SplitJoin(parts[1..]);
      SplitAfterPiece(parts[0], Join(parts[1..]));
      assert [parts[0]] + parts[1..] == parts;
    }
  }

  /** `.filter(Boolean)` on strings: the non-empty pieces, in order. */
  function NonEmpty(parts: seq<string>): (segs: seq<string>)
    ensures forall k :: 0 <= k < |segs| ==> segs[k] != ""
    ensures forall p :: p in segs <==> p in parts && p != ""
    ensures segs != [] ==>
      exists k :: 0 <= k < |parts| && parts[k] == segs[0] && forall j :: 0 <= j < k ==> parts[j] == ""
  {
    if parts == [] then []
    else
      var segs := NonEmpty(parts[1..]);
      assert forall p :: p in parts <==> p == parts[0] || p in parts[1..];
      (if parts[0] == "" then [] else [parts[0]]) + segs
  }

  /** Filtering keeps order and multiplicity: it distributes over concatenation. */
  lemma {:induction false} NonEmptyConcat(a: seq<string>, b: seq<string>)
    ensures NonEmpty(a + b) == NonEmpty(a) + NonEmpty(b)
  {
    if a != [] {
      assert (a + b)[0] == a[0];
      assert (a + b)[1..] == a[1..] + b;
      NonEmptyConcat(a[1..], b);
    } else {
      assert a + b == b;
    }
  }

  /** The first non-empty segment of a path, or None (the source's `undefined`) when there is none. */
  function FirstSegment(path: string): (seg: Option<string>)
    ensures seg.Some? ==> seg.value != "" && '/' !in seg.value
    ensures seg.Some? ==>
      exists k :: 0 <= k < |Split(path)| && Split(path)[k] == seg.value
                && forall j :: 0 <= j < k ==> Split(path)[j] == ""
    ensures seg.None? <==> forall k :: 0 <= k < |path| ==> path[k] == '/'
  {
    var parts := Split(path);
    var segs := NonEmpty(parts);
    SlashesOnly(path);
    if |segs| == 0 then None
    else
      assert segs[0] in parts;
      Some(segs[0])
  }

  /** A path has no non-empty segment exactly when it is made of slashes only. */
  lemma SlashesOnly(path: string)
    ensures (forall k :: 0 <= k < |path| ==> path[k] == '/')
        <==> (forall p :: p in Split(path) ==> p == "")
  {
    var parts := Split(path);
    JoinSplit(path);
    if forall p :: p in parts ==> p == "" {
      AllEmptyJoin(parts);
    } else {
      var p :| p in parts && p != "";
      AllSlashesHaveEmptyPieces(path, p);
    }
  }

  /** The join of empty pieces is made of slashes only. */
  lemma {:induction false} AllEmptyJoin(parts: seq<string>)
    requires |parts| >= 1
    requires forall p :: p in parts ==> p == ""
    ensures forall k :: 0 <= k < |Join(parts)| ==> Join(parts)[k] == '/'
  {
    assert parts[0] in parts;
    if |parts| > 1 {
      assert forall p :: p in parts[1..] ==> p in parts;
      AllEmptyJoin(parts[1..]);
      assert Join(parts) == "/" + Join(parts[1..]);
    }
  }

  /** A non-empty piece of a split holds a character of the string that is not a slash. */
  lemma {:induction false} AllSlashesHaveEmptyPieces(path: string, p: string)
    requires p in Split(path) && p != ""
    ensures exists k :: 0 <= k < |path| && path[k] != '/'
  {
    var rest := Split(path[1..]);
    if path[0] != '/' {
      assert path[0] != '/';
    } else {
      assert Split(path) == [""] + rest;
      assert p in rest;
      AllSlashesHaveEmptyPieces(path[1..], p);
      var k :| 0 <= k < |path[1..]| && path[1..][k] != '/';
      assert path[k + 1] != '/';
    }
  }

  /** The segment right after a leading slash is the first segment. */
  lemma SegmentAfterSlash(seg: string)
    requires seg != "" && '/' !in seg
    ensures FirstSegment("/" + seg) == Some(seg)
  {
    SplitAfterPiece("", seg);
    assert "" + "/" + seg == "/" + seg;
    SplitWithoutSlash(seg);
    assert Split("/" + seg) == ["", seg];
    assert NonEmpty([seg]) == [seg] by {
      assert [seg][1..] == [];
      assert NonEmpty([]) == [];
    }
    assert NonEmpty(["", seg]) == [seg] by {
      assert ["", seg][1..] == [seg];
    }
  }

  // ---------------------------------------------------------------------------
  // Path to language and back
  // ---------------------------------------------------------------------------

  /** The path with the base removed when it starts with it, and the path itself otherwise. */
  function StripBase(base: string, path: string): (rest: string)
    ensures base <= path ==> base + rest == path
    ensures !(base <= path) ==> rest == path
  {
    if base <= path then path[|base|..] else path
  }

  /** JavaScript's `key in SUPPORTED_LANGUAGES`: an own key, or a name inherited from Object.prototype. */
  predicate InSupportedObject(key: string)
  {
    key in SupportedLanguages || key in ObjectPrototypeMembers
  }

  /** The language a path selects, with the membership test of the source. */
  function GetLanguageFromPathAsWritten(base: string, path: string): (lang: string)
    ensures lang != DefaultLanguage ==>
      InSupportedObject(lang) && FirstSegment(StripBase(base, path)) == Some(lang)
  {
    var seg := FirstSegment(StripBase(base, path));
    if seg.Some? && InSupportedObject(seg.value) then seg.value else DefaultLanguage
  }

  /**
   * The language a path selects: its first segment after the base when that
   * is a supported language, and the default language otherwise.
   */
  function GetLanguageFromPath(base: string, path: string): (lang: string)
    ensures lang in SupportedLanguages
    ensures lang != DefaultLanguage ==> FirstSegment(StripBase(base, path)) == Some(lang)
  {
    var seg := FirstSegment(StripBase(base, path));
    if seg.Some? && seg.value in SupportedLanguages then seg.value else DefaultLanguage
  }

  /** The path that selects a language. */
  function GetLanguagePath(base: string, lang: string): (path: string)
    ensures base <= path
    ensures StripBase(base, path) == if lang == DefaultLanguage then "/" else "/" + lang
  {
    if lang == DefaultLanguage then base + "/" else base + "/" + lang
  }

  /**
   * A first segment after the base that passes the membership test is
   * returned as it is; any other path gives the default. Stated for both
   * membership tests.
   */
  lemma LanguageFromSegment(base: string, path: string)
    ensures var seg := FirstSegment(StripBase(base, path));
      && (seg.Some? && seg.value in SupportedLanguages ==> GetLanguageFromPath(base, path) == seg.value)
      && (seg.None? || seg.value !in SupportedLanguages ==> GetLanguageFromPath(base, path) == DefaultLanguage)
      && (seg.Some? && InSupportedObject(seg.value) ==> GetLanguageFromPathAsWritten(base, path) == seg.value)
      && (seg.None? || !InSupportedObject(seg.value) ==> GetLanguageFromPathAsWritten(base, path) == DefaultLanguage)
  {
  }

  /** After the base, the rest of a path that starts with the base is what is left. */
  lemma StripBasePrefix(base: string, rest: string)
    ensures StripBase(base, base + rest) == rest
  {
    assert base <= base + rest;
  }

  /** The path of every supported language selects that language again. */
  lemma LanguagePathRoundTrip(base: string, lang: string)
    requires lang in SupportedLanguages
    ensures GetLanguageFromPath(base, GetLanguagePath(base, lang)) == lang
  {
    var path := GetLanguagePath(base, lang);
    if lang == DefaultLanguage {
      assert FirstSegment(StripBase(base, path)) == None by {
        assert StripBase(base, path) == "/";
        assert "/"[0] == '/';
      }
    } else {
      assert lang == "ru";
      SegmentAfterSlash(lang);
    }
  }

  /** The source's own lookup completes the same round trip: no supported language is an inherited name. */
  lemma AsWrittenRoundTrip(base: string, lang: string)
    requires lang in SupportedLanguages
    ensures GetLanguageFromPathAsWritten(base, GetLanguagePath(base, lang)) == lang
  {
    LanguagePathRoundTrip(base, lang);
    AsWrittenDiffersOnlyOnPrototypeNames(base, GetLanguagePath(base, lang));
  }

  /** The root path selects the default language (BASE_URL "/", so BASE is empty, as in the tests). */
  lemma RootSelectsDefault()
    ensures GetLanguageFromPath(NormalizeBase("/"), "/") == "en"
    ensures GetLanguageFromPath(NormalizeBase("/"), "") == "en"
    ensures GetLanguageFromPathAsWritten(NormalizeBase("/"), "/") == "en"
    ensures GetLanguageFromPathAsWritten(NormalizeBase("/"), "") == "en"
  {
    assert NormalizeBase("/") == "";
    assert FirstSegment("/") == None by {
      assert "/"[0] == '/';
    }
  }

  /** "/ru" selects Russian. */
  lemma RussianSegment()
    ensures GetLanguageFromPath(NormalizeBase("/"), "/ru") == "ru"
    ensures GetLanguageFromPathAsWritten(NormalizeBase("/"), "/ru") == "ru"
  {
    assert NormalizeBase("/") == "";
    SegmentAfterSlash("ru");
    StripBasePrefix("", "/ru");
    assert "" + "/ru" == "/ru";
  }

  /** "/fr" names a language that is not shipped, so it selects the default. */
  lemma UnsupportedSegment()
    ensures GetLanguageFromPath(NormalizeBase("/"), "/fr") == "en"
    ensures GetLanguageFromPathAsWritten(NormalizeBase("/"), "/fr") == "en"
  {
    assert NormalizeBase("/") == "";
    SegmentAfterSlash("fr");
    StripBasePrefix("", "/fr");
    assert "" + "/fr" == "/fr";
    assert "fr" !in ObjectPrototypeMembers;
  }

  /** The paths the tests expect for English and Russian. */
  lemma LanguagePathExamples()
    ensures GetLanguagePath(NormalizeBase("/"), "en") == "/"
    ensures GetLanguagePath(NormalizeBase("/"), "ru") == "/ru"
  {
    assert NormalizeBase("/") == "";
  }

  /** The inherited names are single segments and none of them is a language. */
  lemma PrototypeNamesAreSegments(name: string)
    requires name in ObjectPrototypeMembers
    ensures name != "" && '/' !in name
    ensures name !in SupportedLanguages
  {
  }

  /**
   * With the source's membership test, a path whose first segment is an
   * inherited Object.prototype name selects that name, which is no language;
   * the own-key test selects the default language instead.
   */
  lemma PrototypeNameSelected(base: string, name: string)
    requires name in ObjectPrototypeMembers
    ensures GetLanguageFromPathAsWritten(base, base + "/" + name) == name
    ensures name !in SupportedLanguages
    ensures GetLanguageFromPath(base, base + "/" + name) == DefaultLanguage
  {
    PrototypeNamesAreSegments(name);
    SegmentAfterSlash(name);
    assert base + "/" + name == base + ("/" + name);
    StripBasePrefix(base, "/" + name);
  }

  /** The concrete case: "/toString" selects "toString" when BASE is empty. */
  lemma ToStringSelected()
    ensures GetLanguageFromPathAsWritten("", "/toString") == "toString"
    ensures "toString" !in SupportedLanguages
  {
    PrototypeNamesAreSegments("toString");
    SegmentAfterSlash("toString");
    assert "/" + "toString" == "/toString";
    assert StripBase("", "/toString") == "/toString";
  }

  /** The source's membership test and the own-key test differ only on Object.prototype names. */
  lemma AsWrittenDiffersOnlyOnPrototypeNames(base: string, path: string)
    ensures GetLanguageFromPathAsWritten(base, path) != GetLanguageFromPath(base, path) ==>
      GetLanguageFromPathAsWritten(base, path) in ObjectPrototypeMembers
  {
  }
}
