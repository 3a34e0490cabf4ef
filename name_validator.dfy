/** The slug derivation and the request schema of backend/src/utils/nameValidator.js.

    `slugify` is a chain of five string rewrites; each is one function below, so that the
    properties of the whole chain can be proved from the properties of its stages:
      1. lower-casing (with accent stripping, which the model does for ASCII only),
      2. every maximal run of characters outside [a-z0-9] becomes one '-',
      3. leading and trailing hyphens are trimmed,
      4. runs of two or more hyphens collapse to one,
      5. the result is cut to 53 characters.
 */
module NameValidator {
  import opened Values

  /** The length at which slugify cuts; with the prefix "store-" the namespace stays within
      59 characters, below the 63-character DNS label limit. */
  const MaxSlugLength: nat := 53

  predicate IsAlnum(c: char) {
    'a' <= c <= 'z' || '0' <= c <= '9'
  }

  predicate IsSlugChar(c: char) {
    IsAlnum(c) || c == '-'
  }

  // ---------------------------------------------------------------------------
  // The five stages

  /** ASCII lower-casing; every other character is left as it is. */
  function Lower(c: char): char {
    if 'A' <= c <= 'Z' then (c as int + 32) as char else c
  }

  function LowerAll(s: string): (r: string)
    ensures |r| == |s|
    ensures forall i :: 0 <= i < |s| ==> r[i] == Lower(s[i])
  {
    if s == [] then [] else [Lower(s[0])] + LowerAll(s[1..])
  }

  /** `replace(/[^a-z0-9]+/g, '-')`: a run of non-alphanumerics is skipped up to its last
      character, which becomes the single hyphen. */
  function ReplaceRuns(s: string): string {
    if s == [] then []
    else if !IsAlnum(s[0]) && |s| > 1 && !IsAlnum(s[1]) then ReplaceRuns(s[1..])
    else [if IsAlnum(s[0]) then s[0] else '-'] + ReplaceRuns(s[1..])
  }

  /** The `^-+` half of `replace(/^-+|-+$/g, '')`. */
  function TrimLeading(s: string): string {
    if s != [] && s[0] == '-' then TrimLeading(s[1..]) else s
  }

  /** The `-+$` half of `replace(/^-+|-+$/g, '')`. */
  function TrimTrailing(s: string): string {
    if s != [] && s[|s| - 1] == '-' then TrimTrailing(s[..|s| - 1]) else s
  }

  function TrimHyphens(s: string): string {
    TrimTrailing(TrimLeading(s))
  }

  /** `replace(/-{2,}/g, '-')`: a run of hyphens is skipped up to its last hyphen. */
  function CollapseHyphens(s: string): string {
    if s == [] then []
    else if |s| > 1 && s[0] == '-' && s[1] == '-' then CollapseHyphens(s[1..])
    else [s[0]] + CollapseHyphens(s[1..])
  }

  /** `slice(0, n)`. */
  function Truncate(s: string, n: nat): string {
    if |s| <= n then s else s[..n]
  }

  /** `slugify` exactly as nameValidator.js writes it (for ASCII input). */
  function SlugifyAsWritten(name: string): (r: string)
    ensures |r| <= MaxSlugLength
  {
    Truncate(CollapseHyphens(TrimHyphens(ReplaceRuns(LowerAll(name)))), MaxSlugLength)
  }

  /** `slugify` with the trailing-hyphen trim moved after the cut, so that the result is
      always a valid DNS label tail and derivation is idempotent. */
  function Slugify(name: string): string {
    TrimTrailing(SlugifyAsWritten(name))
  }

  // ---------------------------------------------------------------------------
  // Shape predicates

  predicate SlugChars(s: string) {
    forall i :: 0 <= i < |s| ==> IsSlugChar(s[i])
  }

  predicate NoDoubleHyphen(s: string) {
    forall i :: 0 <= i < |s| - 1 ==> !(s[i] == '-' && s[i + 1] == '-')
  }

  predicate NoLeadingHyphen(s: string) {
    s != [] ==> s[0] != '-'
  }

  predicate NoTrailingHyphen(s: string) {
    s != [] ==> s[|s| - 1] != '-'
  }

  /** What the namespace "store-" + slug needs of a slug. */
  predicate IsSlug(s: string) {
    && |s| <= MaxSlugLength
    && SlugChars(s)
    && NoDoubleHyphen(s)
    && NoLeadingHyphen(s)
    && NoTrailingHyphen(s)
  }

  /** The alphanumeric characters of `s`, in order. */
  function Alnums(s: string): seq<char> {
    if s == [] then [] else (if IsAlnum(s[0]) then [s[0]] else []) + Alnums(s[1..])
  }

  // ---------------------------------------------------------------------------
  // Stage lemmas

  lemma {:induction false} AlnumsAppend(a: string, b: string)
    ensures Alnums(a + b) == Alnums(a) + Alnums(b)
  {
    if a == [] {
      assert a + b == b;
    } else {
      assert (a + b)[0] == a[0] && (a + b)[1..] == a[1..] + b;
      AlnumsAppend(a[1..], b);
      var h := if IsAlnum(a[0]) then [a[0]] else [];
      assert Alnums(a + b) == h + (Alnums(a[1..]) + Alnums(b));
      assert Alnums(a) == h + Alnums(a[1..]);
    }
  }

  /** Slices keep the character set and the absence of double hyphens. */
  lemma SliceShape(s: string, i: nat, j: nat)
    requires i <= j <= |s|
    requires SlugChars(s) && NoDoubleHyphen(s)
    ensures SlugChars(s[i..j]) && NoDoubleHyphen(s[i..j])
  {
    var r := s[i..j];
    forall k | 0 <= k < |r| - 1
      ensures !(r[k] == '-' && r[k + 1] == '-')
    {
      assert r[k] == s[i + k] && r[k + 1] == s[i + k + 1];
    }
  }

  lemma {:induction false} AlnumsHas(s: string, i: nat)
    requires i < |s| && IsAlnum(s[i])
    ensures |Alnums(s)| >= 1
  {
    if i > 0 {
      AlnumsHas(s[1..], i - 1);
    }
  }

  /** A hyphen may follow `c` in `[c] + t` without making a double hyphen. */
  lemma ConsKeepsShape(c: char, t: string)
    requires IsSlugChar(c) && SlugChars(t) && NoDoubleHyphen(t)
    requires c == '-' && t != [] ==> t[0] != '-'
    ensures SlugChars([c] + t) && NoDoubleHyphen([c] + t)
  {
    var r := [c] + t;
    forall i | 0 <= i < |r| - 1
      ensures !(r[i] == '-' && r[i + 1] == '-')
    {
      if i > 0 {
        assert r[i] == t[i - 1] && r[i + 1] == t[i];
      }
    }
  }

  /** Stage 2 leaves only [a-z0-9-], never two hyphens in a row, and every alphanumeric. */
  lemma {:induction false} ReplaceRunsShape(s: string)
    ensures SlugChars(ReplaceRuns(s)) && NoDoubleHyphen(ReplaceRuns(s))
    ensures |ReplaceRuns(s)| <= |s|
    ensures s != [] ==> ReplaceRuns(s) != [] && ReplaceRuns(s)[0] == (if IsAlnum(s[0]) then s[0] else '-')
    ensures Alnums(ReplaceRuns(s)) == Alnums(s)
  {
    if s != [] {
      ReplaceRunsShape(s[1..]);
      if !IsAlnum(s[0]) && |s| > 1 && !IsAlnum(s[1]) {
      } else {
        var c := if IsAlnum(s[0]) then s[0] else '-';
        ConsKeepsShape(c, ReplaceRuns(s[1..]));
        AlnumsAppend([c], ReplaceRuns(s[1..]));
        AlnumsAppend([s[0]], s[1..]);
        assert [s[0]] + s[1..] == s;
      }
    }
  }

  lemma TrimLeadingShape(s: string)
    ensures |TrimLeading(s)| <= |s| && TrimLeading(s) == s[|s| - |TrimLeading(s)|..]
    ensures NoLeadingHyphen(TrimLeading(s))
    ensures Alnums(TrimLeading(s)) == Alnums(s)
  {
    TrimLeadingSuffix(s);
    TrimLeadingAlnums(s);
  }

  /** How many hyphens `s` starts with. */
  function LeadingHyphens(s: string): (k: nat)
    ensures k <= |s|
  {
    if s != [] && s[0] == '-' then 1 + LeadingHyphens(s[1..]) else 0
  }

  lemma {:induction false} TrimLeadingDrops(s: string)
    ensures TrimLeading(s) == s[LeadingHyphens(s)..]
  {
    if s != [] && s[0] == '-' {
      TrimLeadingDrops(s[1..]);
      assert s[1..][LeadingHyphens(s[1..])..] == s[LeadingHyphens(s)..];
    }
  }

  lemma TrimLeadingSuffix(s: string)
    ensures |TrimLeading(s)| <= |s| && TrimLeading(s) == s[|s| - |TrimLeading(s)|..]
  {
    TrimLeadingDrops(s);
  }

  lemma {:induction false} TrimLeadingAlnums(s: string)
    ensures NoLeadingHyphen(TrimLeading(s))
    ensures Alnums(TrimLeading(s)) == Alnums(s)
  {
    if s != [] && s[0] == '-' {
      TrimLeadingAlnums(s[1..]);
    }
  }

  lemma {:induction false} TrimTrailingShape(s: string)
    ensures |TrimTrailing(s)| <= |s| && TrimTrailing(s) == s[..|TrimTrailing(s)|]
    ensures NoTrailingHyphen(TrimTrailing(s))
    ensures Alnums(TrimTrailing(s)) == Alnums(s)
  {
    if s != [] && s[|s| - 1] == '-' {
      var p := s[..|s| - 1];
      TrimTrailingShape(p);
      AlnumsAppend(p, ['-']);
      assert p + ['-'] == s;
    }
  }

  /** On a string without double hyphens, trimming the tail removes at most one character. */
  lemma TrimTrailingOnce(s: string)
    requires NoDoubleHyphen(s)
    ensures TrimTrailing(s) == if s != [] && s[|s| - 1] == '-' then s[..|s| - 1] else s
  {
    if s != [] && s[|s| - 1] == '-' {
      var p := s[..|s| - 1];
      if p != [] {
        assert p[|p| - 1] == s[|s| - 2];
      }
    }
  }

  /** Stage 4 is the identity once stage 2 has run; `CollapseHyphens` never changes anything. */
  lemma {:induction false} CollapseIdentity(s: string)
    requires NoDoubleHyphen(s)
    ensures CollapseHyphens(s) == s
  {
    if s != [] {
      assert NoDoubleHyphen(s[1..]) by {
        forall i | 0 <= i < |s[1..]| - 1
          ensures !(s[1..][i] == '-' && s[1..][i + 1] == '-')
        {
          assert s[1..][i] == s[i + 1] && s[1..][i + 1] == s[i + 2];
        }
      }
      CollapseIdentity(s[1..]);
    }
  }

  /** Stages 1 to 3 yield a string of slug characters with no hyphen at either end and the
      same alphanumerics as the lower-cased name. */
  lemma TrimmedShape(name: string)
    ensures var t := TrimHyphens(ReplaceRuns(LowerAll(name)));
      && SlugChars(t) && NoDoubleHyphen(t) && NoLeadingHyphen(t) && NoTrailingHyphen(t)
      && |t| <= |name|
      && Alnums(t) == Alnums(LowerAll(name))
  {
    var u := ReplaceRuns(LowerAll(name));
    ReplaceRunsShape(LowerAll(name));
    var v := TrimLeading(u);
    TrimLeadingShape(u);
    SliceShape(u, |u| - |v|, |u|);
    var t := TrimTrailing(v);
    TrimTrailingShape(v);
    SliceShape(v, 0, |t|);
    if t != [] {
      assert t[0] == v[0];
    }
  }

  // ---------------------------------------------------------------------------
  // Properties of slugify as written

  /** For ASCII input, slugify is: lower-case, map each maximal non-alphanumeric run to one
      hyphen, trim hyphens at both ends, cut to 53; the collapse step never fires. */
  lemma SlugifyAsWrittenSkipsCollapse(name: string)
    ensures SlugifyAsWritten(name) == Truncate(TrimHyphens(ReplaceRuns(LowerAll(name))), MaxSlugLength)
  {
    TrimmedShape(name);
    CollapseIdentity(TrimHyphens(ReplaceRuns(LowerAll(name))));
  }

  /** The output is at most 53 characters of [a-z0-9-], never has two hyphens in a row,
      never starts with one, and ends with one only when the 53-character cut falls just
      after a hyphen. */
  lemma SlugifyAsWrittenShape(name: string)
    ensures var r := SlugifyAsWritten(name);
      && |r| <= MaxSlugLength
      && |r| <= |name|
      && SlugChars(r) && NoDoubleHyphen(r) && NoLeadingHyphen(r)
      && (|r| < MaxSlugLength ==> NoTrailingHyphen(r))
  {
    TrimmedShape(name);
    SlugifyAsWrittenSkipsCollapse(name);
    var t := TrimHyphens(ReplaceRuns(LowerAll(name)));
    var r := SlugifyAsWritten(name);
    assert r == t || r == t[..MaxSlugLength];
  }

  /** The slug is too short (fewer than 2 characters) exactly when the name has fewer than
      2 ASCII letters or digits, which is what the error message of createStore says. */
  lemma SlugTooShortIff(name: string)
    ensures |SlugifyAsWritten(name)| < 2 <==> |Alnums(LowerAll(name))| < 2
    ensures |Slugify(name)| < 2 <==> |Alnums(LowerAll(name))| < 2
  {
    TrimmedShape(name);
    SlugifyAsWrittenSkipsCollapse(name);
    var t := TrimHyphens(ReplaceRuns(LowerAll(name)));
    var r := SlugifyAsWritten(name);
    if |t| >= 2 {
      assert IsAlnum(t[0]);
      AlnumsAppend([t[0]], t[1..]);
      assert [t[0]] + t[1..] == t;
      if IsAlnum(t[1]) {
        AlnumsHas(t[1..], 0);
      } else {
        assert t[1] == '-' && |t| >= 3 && t[2] != '-';
        AlnumsHas(t[1..], 1);
      }
      assert |r| >= 2;
      TrimTrailingOnce(r);
      if |r| < MaxSlugLength {
        assert r == t;
      }
    } else if |t| == 1 {
      assert IsAlnum(t[0]);
      assert Alnums(t) == [t[0]] + Alnums([]);
      assert r == t;
    } else {
      assert r == t == [];
    }
  }

  /** Counterexample: as written, slugify is not idempotent and can end with a hyphen. */
  lemma SlugifyAsWrittenNotIdempotent()
    ensures var name := seq(52, _ => 'a') + "-b";
      && SlugifyAsWritten(name) == seq(52, _ => 'a') + "-"
      && SlugifyAsWritten(SlugifyAsWritten(name)) != SlugifyAsWritten(name)
  {
    var a52 := seq(52, _ => 'a');
    var name := a52 + "-b";
    FixedPointStages(name);
    assert SlugifyAsWritten(name) == name[..53];
    assert name[..53] == a52 + "-";
    FixedPointStages(a52 + "-");
    var once := a52 + "-";
    TrimTrailingOnce(once);
    assert SlugifyAsWritten(once) == Truncate(TrimTrailing(once), MaxSlugLength);
    assert |SlugifyAsWritten(once)| == 52;
  }

  /** On a string of lower-case slug characters without double or leading hyphens, stages
      1, 2, 3's leading trim and 4 change nothing. */
  lemma {:induction false} FixedPointStages(s: string)
    requires SlugChars(s) && NoDoubleHyphen(s) && NoLeadingHyphen(s)
    ensures LowerAll(s) == s && ReplaceRuns(s) == s && TrimLeading(s) == s
    ensures SlugifyAsWritten(s) == Truncate(TrimTrailing(s), MaxSlugLength)
  {
    LowerIdentity(s);
    ReplaceRunsIdentity(s);
    TrimTrailingShape(s);
    var t := TrimTrailing(s);
    assert NoDoubleHyphen(t);
    CollapseIdentity(t);
  }

  lemma {:induction false} LowerIdentity(s: string)
    requires SlugChars(s)
    ensures LowerAll(s) == s
  {
    if s != [] {
      assert IsSlugChar(s[0]);
      LowerIdentity(s[1..]);
      assert [s[0]] + s[1..] == s;
    }
  }

  lemma {:induction false} ReplaceRunsIdentity(s: string)
    requires SlugChars(s) && NoDoubleHyphen(s)
    ensures ReplaceRuns(s) == s
  {
    if s != [] {
      assert IsSlugChar(s[0]);
      if |s| > 1 {
        assert !(s[0] == '-' && s[1] == '-');
        assert IsSlugChar(s[1]);
      }
      assert NoDoubleHyphen(s[1..]) by {
        forall i | 0 <= i < |s[1..]| - 1
          ensures !(s[1..][i] == '-' && s[1..][i + 1] == '-')
        {
          assert s[1..][i] == s[i + 1] && s[1..][i + 1] == s[i + 2];
        }
      }
      ReplaceRunsIdentity(s[1..]);
      assert [s[0]] + s[1..] == s;
    }
  }

  // ---------------------------------------------------------------------------
  // Properties of the corrected slugify

  /** Every output is a slug: at most 53 characters of [a-z0-9-], no double hyphen and no
      hyphen at either end; it differs from the as-written output by at most that one
      trailing hyphen. */
  lemma SlugifyShape(name: string)
    ensures IsSlug(Slugify(name))
    ensures |Slugify(name)| <= |name|
    ensures NoTrailingHyphen(SlugifyAsWritten(name)) ==> Slugify(name) == SlugifyAsWritten(name)
    ensures !NoTrailingHyphen(SlugifyAsWritten(name)) ==>
      Slugify(name) + "-" == SlugifyAsWritten(name)
  {
    SlugifyAsWrittenShape(name);
    var r := SlugifyAsWritten(name);
    TrimTrailingOnce(r);
    TrimTrailingShape(r);
  }

  /** Slug derivation is idempotent. */
  lemma SlugifyIdempotent(name: string)
    ensures Slugify(Slugify(name)) == Slugify(name)
  {
    var s := Slugify(name);
    SlugifyShape(name);
    FixedPointStages(s);
    TrimTrailingOnce(s);
  }

  /** Stage 2 works word by word: it can be applied to two pieces separately unless the
      cut falls inside a run of non-alphanumerics. */
  lemma {:induction false} ReplaceRunsAppend(a: string, b: string)
    requires a == [] || b == [] || IsAlnum(a[|a| - 1]) || IsAlnum(b[0])
    ensures ReplaceRuns(a + b) == ReplaceRuns(a) + ReplaceRuns(b)
  {
    if a == [] {
      assert a + b == b;
    } else if b == [] {
      assert a + b == a;
    } else {
      assert (a + b)[0] == a[0] && (a + b)[1..] == a[1..] + b;
      if |a| > 1 {
        assert (a + b)[1] == a[1];
      } else {
        assert (a + b)[1..] == b;
      }
      ReplaceRunsAppend(a[1..], b);
    }
  }

  // The example is proved on variables equal to the literals, stage by stage: stated on
  // the literal itself, the recursive definitions unfold past the resource limit.

  /** Stage 2 on a word, one separator and the rest: the word stays, the separator becomes a
      hyphen. */
  lemma ReplaceRunsWord(s: string, w: string, c: char, rest: string)
    requires s == w + ([c] + rest)
    requires w != [] && forall i :: 0 <= i < |w| ==> IsAlnum(w[i])
    requires !IsAlnum(c)
    requires rest == [] || IsAlnum(rest[0])
    ensures ReplaceRuns(s) == w + (['-'] + ReplaceRuns(rest))
  {
    ReplaceRunsIdentity(w);
    ReplaceRunsAppend(w, [c] + rest);
    assert ([c] + rest)[1..] == rest;
  }

  lemma ExampleLowered(name: string)
    requires name == "My Awesome Store!"
    ensures LowerAll(name) == "my awesome store!"
  {
  }

  lemma ExampleSplit(l: string)
    requires l == "my awesome store!"
    ensures l == "my" + ([' '] + "awesome store!")
    ensures l[3..] == "awesome" + ([' '] + "store!")
    ensures l[11..] == "store" + (['!'] + [])
  {
  }

  lemma ExampleJoin(a: string, b: string, c: string)
    requires a == "store" + (['-'] + [])
    requires b == "awesome" + (['-'] + a)
    requires c == "my" + (['-'] + b)
    ensures c == "my-awesome-store-"
  {
  }

  lemma ExampleReplaced(l: string)
    requires l == "my awesome store!"
    ensures ReplaceRuns(l) == "my-awesome-store-"
  {
    ExampleSplit(l);
    ReplaceRunsWord(l[11..], "store", '!', []);
    ReplaceRunsWord(l[3..], "awesome", ' ', l[11..]);
    ReplaceRunsWord(l, "my", ' ', l[3..]);
    ExampleJoin(ReplaceRuns(l[11..]), ReplaceRuns(l[3..]), ReplaceRuns(l));
  }

  lemma ExampleTrimmed(r: string)
    requires r == "my-awesome-store-"
    ensures TrimHyphens(r) == "my-awesome-store"
  {
    assert TrimLeading(r) == r;
    var u := r[..|r| - 1];
    assert TrimTrailing(r) == TrimTrailing(u);
    assert u == "my-awesome-store";
    assert TrimTrailing(u) == u;
  }

  /** The example in the doc comment of slugify: "My Awesome Store!" becomes "my-awesome-store". */
  lemma SlugifyExample(name: string)
    requires name == "My Awesome Store!"
    ensures SlugifyAsWritten(name) == "my-awesome-store"
    ensures Slugify(name) == "my-awesome-store"
  {
    ExampleLowered(name);
    ExampleReplaced(LowerAll(name));
    ExampleTrimmed(ReplaceRuns(LowerAll(name)));
    var slug := TrimHyphens(ReplaceRuns(LowerAll(name)));
    assert NoDoubleHyphen(slug);
    CollapseIdentity(slug);
  }

  // ---------------------------------------------------------------------------
  // The request schema (storeSchema) and its two entry points

  /** A field of the request body as JSON delivers it: missing, null, a string, or any
      other JSON value (number, boolean, object, array). */
  datatype JsonValue = Absent | Null | Str(s: string) | OtherValue

  /** The request body: the four declared keys and the names of any others. */
  datatype StoreInput = StoreInput(
    name: JsonValue,
    storeType: JsonValue,
    adminUser: JsonValue,
    adminPassword: JsonValue,
    unknownKeys: set<string>)

  /** What a successful validation hands to createStore, defaults filled in. */
  datatype StoreRequest = StoreRequest(
    name: string,
    storeType: string,
    adminUser: string,
    adminPassword: Option<string>)

  const MinNameLength: nat := 2
  const MaxNameLength: nat := 60
  const DefaultStoreType := "woocommerce"
  const DefaultAdminUser := "admin"
  const AllowedStoreTypes: set<string> := {"woocommerce", "medusa"}

  /** The character class of `/^[a-zA-Z0-9_-]+$/`. */
  predicate IsAdminUserChar(c: char) {
    'a' <= c <= 'z' || 'A' <= c <= 'Z' || '0' <= c <= '9' || c == '_' || c == '-'
  }

  predicate AdminUserShape(u: string) {
    3 <= |u| <= 30 && forall i :: 0 <= i < |u| ==> IsAdminUserChar(u[i])
  }

  // One rule per key: the value after defaults, or None when the key is rejected.

  function NameRule(v: JsonValue): Option<string> {
    if v.Str? && MinNameLength <= |v.s| <= MaxNameLength then Some(v.s) else None
  }

  function TypeRule(v: JsonValue): Option<string> {
    match v
    case Absent => Some(DefaultStoreType)
    case Str(t) => if t in AllowedStoreTypes then Some(t) else None
    case _ => None
  }

  function AdminUserRule(v: JsonValue): Option<string> {
    match v
    case Absent => Some(DefaultAdminUser)
    case Str(u) => if AdminUserShape(u) then Some(u) else None
    case _ => None
  }

  function PasswordRule(v: JsonValue): Option<Option<string>> {
    match v
    case Absent => Some(None)
    case Str(p) => if 6 <= |p| <= 64 then Some(Some(p)) else None
    case _ => None
  }

  /** validateStoreInput: the body is accepted exactly when no unknown key is present, the
      name is a string of 2..60 characters, the type is absent or one of the two supported
      kinds, the admin user is absent or 3..30 characters of [A-Za-z0-9_-], and the password
      is absent or a string of 6..64 characters; absent keys take their defaults. */
  function ValidateStoreInput(input: StoreInput): (r: Option<StoreRequest>)
    ensures r.Some? <==>
      && input.unknownKeys == {}
      && input.name.Str? && MinNameLength <= |input.name.s| <= MaxNameLength
      && (input.storeType.Absent? || (input.storeType.Str? && input.storeType.s in AllowedStoreTypes))
      && (input.adminUser.Absent? || (input.adminUser.Str? && AdminUserShape(input.adminUser.s)))
      && (input.adminPassword.Absent? || (input.adminPassword.Str? && 6 <= |input.adminPassword.s| <= 64))
    ensures r.Some? ==>
      && r.value.storeType in AllowedStoreTypes
      && MinNameLength <= |r.value.name| <= MaxNameLength
      && AdminUserShape(r.value.adminUser)
      && (r.value.adminPassword.Some? ==> 6 <= |r.value.adminPassword.value| <= 64)
      && (input.storeType.Absent? ==> r.value.storeType == DefaultStoreType)
      && (input.adminUser.Absent? ==> r.value.adminUser == DefaultAdminUser)
      && (input.adminPassword.Absent? ==> r.value.adminPassword.None?)
    ensures r.Some? ==>
      && r.value.name == input.name.s
      && (input.storeType.Str? ==> r.value.storeType == input.storeType.s)
      && (input.adminUser.Str? ==> r.value.adminUser == input.adminUser.s)
      && (input.adminPassword.Str? ==> r.value.adminPassword == Some(input.adminPassword.s))
  {
    var name := NameRule(input.name);
    var storeType := TypeRule(input.storeType);
    var adminUser := AdminUserRule(input.adminUser);
    var password := PasswordRule(input.adminPassword);
    if input.unknownKeys == {} && name.Some? && storeType.Some? && adminUser.Some? && password.Some?
    then Some(StoreRequest(name.value, storeType.value, adminUser.value, password.value))
    else None
  }

  /** Why `validateStoreName` rejects a name. Only the two length messages are customised. */
  datatype NameError = NameMissing | NameNotString | NameEmpty | NameTooShort | NameTooLong

  const TooShortPrefix := "Store name must be at least "
  const TooLongPrefix := "Store name must be at most "
  const CharactersSuffix := " characters"

  /** The two customised Joi messages; each names the schema's own bound. */
  function NameErrorMessage(e: NameError): (r: Option<string>)
    ensures r.Some? <==> e == NameTooShort || e == NameTooLong
    ensures e == NameTooShort ==> r == Some(TooShortPrefix + NatToString(MinNameLength) + CharactersSuffix)
    ensures e == NameTooLong ==> r == Some(TooLongPrefix + NatToString(MaxNameLength) + CharactersSuffix)
  {
    match e
    case NameTooShort =>
      assert NatToString(MinNameLength) == "2";
      Some(TooShortPrefix + "2" + CharactersSuffix)
    case NameTooLong =>
      assert NatToString(6) == "6";
      assert NatToString(MaxNameLength) == "60";
      Some(TooLongPrefix + "60" + CharactersSuffix)
    case _ => None
  }

  /** validateStoreName: the name rule alone. An empty string is reported as empty (Joi's
      empty-string check runs before the length rules), not as too short. */
  function ValidateStoreName(v: JsonValue): (r: Option<NameError>)
    ensures r.None? <==> NameRule(v).Some?
    ensures r == Some(NameTooShort) <==> v.Str? && 0 < |v.s| < MinNameLength
    ensures r == Some(NameTooLong) <==> v.Str? && |v.s| > MaxNameLength
  {
    match v
    case Absent => Some(NameMissing)
    case Str(s) =>
      if s == [] then Some(NameEmpty)
      else if |s| < MinNameLength then Some(NameTooShort)
      else if |s| > MaxNameLength then Some(NameTooLong)
      else None
    case _ => Some(NameNotString)
  }

  /** Passing the schema does not guarantee a usable slug: "!!" has two characters and no
      alphanumeric one, so createStore still rejects it. */
  lemma SchemaAcceptsUnsluggableName(input: StoreInput)
    requires input == StoreInput(Str("!!"), Absent, Absent, Absent, {})
    ensures ValidateStoreInput(input).Some?
    ensures Slugify(ValidateStoreInput(input).value.name) == []
  {
    var name := "!!";
    assert LowerAll(name) == name;
    assert ReplaceRuns(name) == ReplaceRuns(name[1..]) == "-";
  }
}
