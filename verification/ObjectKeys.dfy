/** Names built from strings: object keys and public URLs in src/service/storage_service.cpp, and cache
    keys in src/cache/resource_cache.cpp. */
module ObjectKeys {
  import opened Text

  // ---- endpoint and file name clean-up ----

  predicate Trimmed(value: string, t: string) {
    && t <= value
    && (forall i :: |t| <= i < |value| ==> value[i] == '/')
    && (t != "" ==> t[|t| - 1] != '/')
  }

  /** trim_trailing_slash(): the longest prefix that does not end in a slash. */
  method TrimTrailingSlash(value: string) returns (t: string)
    ensures Trimmed(value, t)
  {
    var n := |value|;
    while n > 0 && value[n - 1] == '/'
      invariant 0 <= n <= |value|
      invariant forall i :: n <= i < |value| ==> value[i] == '/'
    {
      n := n - 1;
    }
    t := value[..n];
  }

  /** What trim_trailing_slash returns is determined by its property, so the upload and the download
      side use the same endpoint. */
  lemma TrimmedUnique(value: string, a: string, b: string)
    requires Trimmed(value, a) && Trimmed(value, b)
    ensures a == b
  {
    assert a == value[..|a|] && b == value[..|b|];
    assert a != "" ==> value[|a| - 1] != '/';
    assert b != "" ==> value[|b| - 1] != '/';
    assert |a| == |b|;
  }

  predicate IsAlnum(c: char) { IsDigit(c) || 'a' <= c <= 'z' || 'A' <= c <= 'Z' }

  /** The character a file name keeps: letters, digits, dot, dash and underscore, else underscore. */
  function SafeChar(c: char): char {
    if IsAlnum(c) || c == '.' || c == '-' || c == '_' then c else '_'
  }

  predicate Sanitized(filename: string, clean: string) {
    && |clean| == |filename|
    && forall i :: 0 <= i < |clean| ==> clean[i] == SafeChar(filename[i])
  }

  /** sanitize_filename(): replaces unsafe characters and answers "" for empty and dot-only names. */
  method SanitizeFilename(filename: string) returns (clean: string)
    ensures clean != "" ==> Sanitized(filename, clean)
    ensures clean != "" ==>
              forall i :: 0 <= i < |clean| ==>
                var c := filename[i];
                var safe := 'a' <= c <= 'z' || 'A' <= c <= 'Z' || '0' <= c <= '9' || c == '.' || c == '-' || c == '_';
                clean[i] == if safe then c else '_'
    ensures clean == "" <==> filename == "" || filename == "." || filename == ".."
  {
    clean := "";
    for i := 0 to |filename|
      invariant |clean| == i
      invariant forall k :: 0 <= k < i ==> clean[k] == SafeChar(filename[k])
    {
      clean := clean + [SafeChar(filename[i])];
    }
    OnlyDots(filename, clean);
    if clean == "" || clean == "." || clean == ".." {
      clean := "";
    }
  }

  lemma OnlyDots(filename: string, clean: string)
    requires Sanitized(filename, clean)
    ensures clean == "." <==> filename == "."
    ensures clean == ".." <==> filename == ".."
  {}

  predicate HasDotDot(s: string) { exists i :: 0 <= i < |s| - 1 && s[i] == '.' && s[i + 1] == '.' }

  /** has_path_traversal() */
  predicate HasPathTraversal(filename: string) {
    '/' in filename || '\\' in filename || HasDotDot(filename)
  }

  /** An accepted name has no directory separator and no parent marker once it is cleaned. */
  lemma CleanNameIsFlat(filename: string, clean: string)
    requires Sanitized(filename, clean) && !HasPathTraversal(filename)
    ensures !HasPathTraversal(clean)
  {
    assert forall i :: 0 <= i < |clean| ==> clean[i] != '/' && clean[i] != '\\';
    assert forall i :: 0 <= i < |clean| ==> (clean[i] == '.' <==> filename[i] == '.');
  }

  function ToLower(s: string): string { seq(|s|, i requires 0 <= i < |s| => Lower(s[i])) }

  /** The extension from the last dot on, lowered; empty without a dot. */
  function FileExtension(name: string): string {
    if name == "" then ""
    else if name[|name| - 1] == '.' then "."
    else
      var ext := FileExtension(name[..|name| - 1]);
      if ext == "" then "" else ext + [Lower(name[|name| - 1])]
  }

  /** Offset `k` holds the last dot of a name. */
  predicate LastDot(name: string, k: nat) {
    k < |name| && name[k] == '.' && forall i :: k < i < |name| ==> name[i] != '.'
  }

  /** Without a dot there is no extension; with one it is the name from its last dot on, lowered. */
  lemma {:induction false} ExtensionExact(name: string)
    ensures FileExtension(name) == "" <==> '.' !in name
    ensures forall k: nat :: LastDot(name, k) ==> FileExtension(name) == ToLower(name[k..])
    decreases |name|
  {
    if name != "" {
      var init, c := name[..|name| - 1], name[|name| - 1];
      assert name == init + [c];
      ExtensionExact(init);
      forall k: nat | LastDot(name, k) ensures FileExtension(name) == ToLower(name[k..]) {
        if k == |init| {
          assert name[k..] == ['.'];
        } else {
          assert LastDot(init, k) && name[k..] == init[k..] + [c];
          assert ToLower(name[k..]) == ToLower(init[k..]) + [Lower(c)];
        }
      }
    }
  }

  /** A name ends in an extension, in whatever case, with the extension's dot as its last one. */
  predicate EndsIn(name: string, ext: string) {
    |ext| <= |name| && LastDot(name, |name| - |ext|) && SameIgnoringCase(name[|name| - |ext|..], ext)
  }

  /** It ends in one of the eight that are not accepted. */
  predicate BlockedName(name: string) {
    || EndsIn(name, ".bat") || EndsIn(name, ".cmd") || EndsIn(name, ".com") || EndsIn(name, ".dll")
    || EndsIn(name, ".exe") || EndsIn(name, ".js") || EndsIn(name, ".ps1") || EndsIn(name, ".sh")
  }

  /** Cleaning a name neither hides nor makes such an ending. */
  lemma CleanKeepsExtension(filename: string, clean: string)
    requires Sanitized(filename, clean)
    ensures BlockedName(clean) <==> BlockedName(filename)
  {
    CleanEnds(filename, clean, ".bat");
    CleanEnds(filename, clean, ".cmd");
    CleanEnds(filename, clean, ".com");
    CleanEnds(filename, clean, ".dll");
    CleanEnds(filename, clean, ".exe");
    CleanEnds(filename, clean, ".js");
    CleanEnds(filename, clean, ".ps1");
    CleanEnds(filename, clean, ".sh");
    hide EndsIn, Sanitized;
  }

  lemma CleanEnds(filename: string, clean: string, ext: string)
    requires Sanitized(filename, clean) && forall i :: 0 <= i < |ext| ==> ext[i] == '.' || IsDigit(ext[i]) || 'a' <= ext[i] <= 'z'
    ensures EndsIn(clean, ext) <==> EndsIn(filename, ext)
  {
    if |ext| <= |clean| {
      var k := |clean| - |ext|;
      assert forall i :: 0 <= i < |clean| ==> (clean[i] == '.' <==> filename[i] == '.');
      assert forall i :: 0 <= i < |ext| ==> clean[k..][i] == SafeChar(filename[k..][i]);
      assert forall i :: 0 <= i < |ext| ==> (Lower(clean[k..][i]) == Lower(ext[i]) <==> Lower(filename[k..][i]) == Lower(ext[i]));
    }
  }

  /** The media types that are accepted, in whatever case. */
  predicate AllowedType(contentType: string) {
    || SameIgnoringCase(contentType, "text/plain") || SameIgnoringCase(contentType, "application/pdf")
    || SameIgnoringCase(contentType, "image/png") || SameIgnoringCase(contentType, "image/jpeg")
    || SameIgnoringCase(contentType, "application/msword")
    || SameIgnoringCase(contentType, DOCUMENT_TYPE)
  }

  lemma LoweredIs(s: string, lowered: string)
    requires IsLowered(lowered)
    ensures ToLower(s) == lowered <==> SameIgnoringCase(s, lowered)
  {
    if ToLower(s) == lowered {
      assert forall i :: 0 <= i < |s| ==> Lower(s[i]) == ToLower(s)[i] == Lower(lowered[i]);
    }
    if SameIgnoringCase(s, lowered) {
      assert forall i :: 0 <= i < |s| ==> ToLower(s)[i] == lowered[i];
    }
  }

  predicate IsLowered(s: string) { forall i :: 0 <= i < |s| ==> Lower(s[i]) == s[i] }

  lemma EmptyIsNone(contentType: string)
    ensures contentType == "" ==> !AllowedType(contentType)
  {
    assert |DOCUMENT_TYPE| > 0;
  }

  lemma SimpleTypesLowered()
    ensures IsLowered("text/plain") && IsLowered("application/pdf") && IsLowered("image/png")
    ensures IsLowered("image/jpeg") && IsLowered("application/msword")
  {}

  lemma DocumentTypeLowered()
    ensures IsLowered(DOCUMENT_TYPE)
  {
    var a, b, c := "application/vnd.openxml", "formats-officedocument", ".wordprocessingml.document";
    assert IsLowered(a);
    assert IsLowered(b);
    assert IsLowered(c);
    hide IsLowered;
    LoweredJoin(b, c);
    LoweredJoin(a, b + c);
  }

  lemma LoweredJoin(a: string, b: string)
    requires IsLowered(a) && IsLowered(b)
    ensures IsLowered(a + b)
  {}

  lemma AllowedIff(contentType: string)
    ensures ToLower(contentType) in ALLOWED_TYPES <==> AllowedType(contentType)
    ensures contentType == "" ==> !AllowedType(contentType)
  {
    hide ToLower, IsLowered, SameIgnoringCase;
    SimpleTypesLowered();
    EmptyIsNone(contentType);
    LoweredIs(contentType, "text/plain");
    LoweredIs(contentType, "application/pdf");
    LoweredIs(contentType, "image/png");
    LoweredIs(contentType, "image/jpeg");
    LoweredIs(contentType, "application/msword");
    DocumentTypeLowered();
    LoweredIs(contentType, DOCUMENT_TYPE);
  }

  lemma TraversalIff(name: string)
    ensures HasPathTraversal(name) <==>
              !('/' !in name && '\\' !in name && forall i :: 0 < i < |name| ==> name[i - 1] != '.' || name[i] != '.')
  {
    if HasDotDot(name) {
      var i :| 0 <= i < |name| - 1 && name[i] == '.' && name[i + 1] == '.';
      assert name[(i + 1) - 1] == '.' && name[i + 1] == '.';
    } else {
      forall i | 0 < i < |name| ensures name[i - 1] != '.' || name[i] != '.' {
        var j := i - 1;
        assert !(name[j] == '.' && name[j + 1] == '.');
      }
    }
  }

  /** The blocked names are exactly those that end, in whatever case, in one of the eight extensions. */
  lemma BlockedIff(name: string)
    ensures FileExtension(name) in BLOCKED <==> BlockedName(name)
  {
    EndsInIff(name, ".bat");
    EndsInIff(name, ".cmd");
    EndsInIff(name, ".com");
    EndsInIff(name, ".dll");
    EndsInIff(name, ".exe");
    EndsInIff(name, ".js");
    EndsInIff(name, ".ps1");
    EndsInIff(name, ".sh");
    hide EndsIn;
  }

  lemma EndsInIff(name: string, ext: string)
    requires |ext| > 0 && ext[0] == '.' && ToLower(ext) == ext
    ensures FileExtension(name) == ext <==> EndsIn(name, ext)
  {
    hide FileExtension;
    ExtensionExact(name);
    if FileExtension(name) == ext {
      var k := FindLastDot(name);
      assert name[k..][0] == '.' && |name[k..]| == |ext|;
      assert forall i :: 0 <= i < |ext| ==> Lower(ext[i]) == ToLower(ext)[i] == ext[i] == Lower(name[k..][i]);
    }
    if EndsIn(name, ext) {
      var tail := name[|name| - |ext|..];
      assert forall i :: 0 <= i < |ext| ==> ToLower(tail)[i] == Lower(ext[i]) == ToLower(ext)[i];
      assert ToLower(tail) == ext;
    }
  }

  lemma {:induction false} FindLastDot(name: string) returns (k: nat)
    requires '.' in name
    ensures LastDot(name, k)
    decreases |name|
  {
    if name[|name| - 1] == '.' {
      k := |name| - 1;
    } else {
      var init := name[..|name| - 1];
      assert name == init + [name[|name| - 1]];
      k := FindLastDot(init);
    }
  }

  const BLOCKED: set<string> := {".bat", ".cmd", ".com", ".dll", ".exe", ".js", ".ps1", ".sh"}
  const DOCUMENT_TYPE: string := "application/vnd.openxml" + ("formats-officedocument" + ".wordprocessingml.document")
  const ALLOWED_TYPES: set<string> := {
    "text/plain", "application/pdf", "image/png", "image/jpeg", "application/msword",
    DOCUMENT_TYPE}

  // ---- object keys ----

  function ObjectKey(user: int, millis: int, clean: string): string {
    "users/" + (ToString(user) + "/" + ("uploads/" + (ToString(millis) + "-" + clean)))
  }

  function PublicUrl(endpoint: string, bucket: string, key: string): string {
    endpoint + "/" + bucket + "/" + key
  }

  /** extract_object_key_from_public_url() */
  function ExtractKey(url: string, endpoint: string, bucket: string): string {
    var prefix := endpoint + "/" + bucket + "/";
    if prefix <= url then url[|prefix|..] else ""
  }

  /** A public URL yields a key exactly when it is the URL of that key. */
  lemma ExtractKeyExact(url: string, endpoint: string, bucket: string, key: string)
    requires key != ""
    ensures ExtractKey(url, endpoint, bucket) == key <==> url == PublicUrl(endpoint, bucket, key)
  {
    var prefix := endpoint + "/" + bucket + "/";
    assert PublicUrl(endpoint, bucket, key) == prefix + key;
    assert (prefix + key)[|prefix|..] == key;
    if prefix <= url {
      assert url == prefix + url[|prefix|..];
    }
  }

  /** What create_upload_url decides before it asks for a signed URL. */
  datatype Upload = Refused(reason: string) | Accepted(key: string, publicUrl: string)

  /** A configured `int` limit compared as an unsigned 64-bit size: a negative one is no limit in practice. */
  function AsSize(limit: int): int { if limit < 0 then limit + 0x1_0000_0000_0000_0000 else limit }

  /** The checks of create_upload_url(), in their order, and the names it builds. */
  method CreateUpload(user: int, millis: int, filename: string, contentType: string, maxLength: int,
                      endpoint: string, bucket: string)
    returns (r: Upload, clean: string)
    ensures var named := filename != "" && filename != "." && filename != "..";
            var short := |filename| <= if maxLength < 0 then 0x1_0000_0000_0000_0000 + maxLength else maxLength;
            var flat := '/' !in filename && '\\' !in filename && forall i :: 0 < i < |filename| ==> filename[i - 1] != '.' || filename[i] != '.';
            match r
            case Accepted(_, _) => named && short && flat && !BlockedName(filename) && AllowedType(contentType)
            case Refused(reason) =>
              || (reason == "invalid filename" && (!named || (short && !flat)))
              || (reason == "filename too long" && named && !short)
              || (reason == "blocked file type" && named && short && flat && BlockedName(filename))
              || (reason == "invalid content_type" && named && short && flat && !BlockedName(filename) && contentType == "")
              || (reason == "unsupported content_type" && named && short && flat && !BlockedName(filename)
                  && contentType != "" && !AllowedType(contentType))
    ensures r.Accepted? ==>
              && clean != "" && Sanitized(filename, clean)
              && r.key == "users/" + (ToString(user) + "/" + ("uploads/" + (ToString(millis) + "-" + clean)))
    ensures r.Accepted? ==> exists ep :: Trimmed(endpoint, ep) && r.publicUrl == PublicUrl(ep, bucket, r.key)
                                         && r.publicUrl == ep + "/" + bucket + "/" + r.key
  {
    clean := SanitizeFilename(filename);
    TraversalIff(filename);
    AllowedIff(contentType);
    if clean != "" {
      BlockedIff(clean);
      CleanKeepsExtension(filename, clean);
    }
    hide BlockedName, AllowedType, HasPathTraversal, FileExtension, Sanitized;
    if clean == "" {
      return Refused("invalid filename"), clean;
    }
    if |filename| > AsSize(maxLength) {
      return Refused("filename too long"), clean;
    }
    if HasPathTraversal(filename) {
      return Refused("invalid filename"), clean;
    }
    if FileExtension(clean) in BLOCKED {
      return Refused("blocked file type"), clean;
    }
    if contentType == "" {
      return Refused("invalid content_type"), clean;
    }
    if ToLower(contentType) !in ALLOWED_TYPES {
      return Refused("unsupported content_type"), clean;
    }
    var ep := TrimTrailingSlash(endpoint);
    var key := ObjectKey(user, millis, clean);
    r := Accepted(key, PublicUrl(ep, bucket, key));
  }

  /** The download and delete side: the stored URL yields a key exactly when it is the URL of that
      key under the trimmed endpoint and the bucket. */
  method FindKey(publicUrl: string, endpoint: string, bucket: string) returns (found: string)
    ensures forall ep, key :: Trimmed(endpoint, ep) && key != "" ==>
              (found == key <==> publicUrl == PublicUrl(ep, bucket, key))
  {
    var trimmed := TrimTrailingSlash(endpoint);
    found := ExtractKey(publicUrl, trimmed, bucket);
    forall ep, key | Trimmed(endpoint, ep) && key != ""
      ensures found == key <==> publicUrl == PublicUrl(ep, bucket, key)
    {
      TrimmedUnique(endpoint, trimmed, ep);
      ExtractKeyExact(publicUrl, ep, bucket, key);
    }
  }

  /** Round trip: for every endpoint, bucket and accepted file name, the key found in the upload's
      public URL is the key that was uploaded to, and it is not empty. */
  method UploadRoundTrip(user: int, millis: int, filename: string, contentType: string, maxLength: int,
                         endpoint: string, bucket: string)
    returns (upload: Upload, found: string)
    ensures upload.Accepted? ==> found == upload.key && found != ""
    ensures upload.Refused? ==> found == ""
  {
    var clean;
    found := "";
    upload, clean := CreateUpload(user, millis, filename, contentType, maxLength, endpoint, bucket);
    if upload.Accepted? {
      found := FindKey(upload.publicUrl, endpoint, bucket);
    }
  }

  lemma NumberHasNo(n: int, c: char)
    requires !IsDigit(c) && c != '-'
    ensures c !in ToString(n)
  {
    var s := ToString(n);
    assert forall i :: 0 <= i < |s| ==> IsDigit(s[i]) || s[i] == '-';
  }

  /** A number followed by a dash: its sign, its digits, the dash and the rest. */
  lemma SignAndDigits(a: int, x: string)
    ensures var digits := Decimal(if a < 0 then -a else a) + ['-'] + x;
            ToString(a) + "-" + x == if a < 0 then "-" + digits else digits
  {
    hide Decimal;
  }

  /** A number followed by a dash ends in one place only, whatever its sign. */
  lemma NumberDash(a: int, b: int, x: string, y: string)
    requires ToString(a) + "-" + x == ToString(b) + "-" + y
    ensures a == b && x == y
  {
    var m, n := if a < 0 then -a else a, if b < 0 then -b else b;
    SignAndDigits(a, x);
    SignAndDigits(b, y);
    assert ToString(a)[0] == (ToString(a) + "-" + x)[0] == (ToString(b) + "-" + y)[0] == ToString(b)[0];
    assert a < 0 <==> b < 0;
    hide ToString, Decimal;
    if a < 0 {
      StripPrefix("-", Decimal(m) + ['-'] + x, Decimal(n) + ['-'] + y);
    }
    DigitsHaveNoDash(m);
    DigitsHaveNoDash(n);
    SplitAtSeparator(Decimal(m), Decimal(n), '-', x, y);
    DecimalInjective(m, n);
  }

  lemma DecimalInjective(m: nat, n: nat)
    requires Decimal(m) == Decimal(n)
    ensures m == n
  {
    ToStringInjective(m, n);
  }

  lemma DigitsHaveNoDash(n: nat)
    ensures '-' !in Decimal(n)
  {
    var s := Decimal(n);
    assert forall i :: 0 <= i < |s| ==> IsDigit(s[i]);
  }

  lemma StripPrefix(prefix: string, x: string, y: string)
    requires prefix + x == prefix + y
    ensures x == y
  {
    assert (prefix + x)[|prefix|..] == x && (prefix + y)[|prefix|..] == y;
  }

  /** Object keys are collision free: equal keys come from the same user, time and clean name. */
  lemma ObjectKeyInjective(u: int, v: int, s: int, t: int, a: string, b: string)
    requires ObjectKey(u, s, a) == ObjectKey(v, t, b)
    ensures u == v && s == t && a == b
  {
    var p, q := ToString(s) + "-" + a, ToString(t) + "-" + b;
    var x, y := "uploads/" + p, "uploads/" + q;
    StripPrefix("users/", ToString(u) + "/" + x, ToString(v) + "/" + y);
    NumberHasNo(u, '/');
    NumberHasNo(v, '/');
    SplitAtSeparator(ToString(u), ToString(v), '/', x, y);
    ToStringInjective(u, v);
    StripPrefix("uploads/", p, q);
    NumberDash(s, t, a, b);
  }

  lemma Regroup(a: string, b: string, c: string)
    ensures a + (b + (['/'] + c)) == (a + (b + ['/'])) + c
    ensures a + (b + ['/'] + c) == (a + (b + ['/'])) + c
  {}

  /** Every upload lands in its own user's folder, and in nobody else's. */
  lemma KeyInOwnFolder(u: int, v: int, millis: int, clean: string)
    ensures "users/" + (ToString(v) + "/") <= ObjectKey(u, millis, clean) <==> u == v
  {
    var rest := "uploads/" + (ToString(millis) + "-" + clean);
    var key, folder := ObjectKey(u, millis, clean), "users/" + (ToString(v) + ['/']);
    Regroup("users/", ToString(u), rest);
    if folder <= key {
      OnlyFolder(u, v, rest, key[|folder|..]);
    }
  }

  lemma OnlyFolder(u: int, v: int, rest: string, tail: string)
    requires "users/" + (ToString(u) + ['/'] + rest) == "users/" + (ToString(v) + ['/']) + tail
    ensures u == v
  {
    hide ToString;
    Regroup("users/", ToString(v), tail);
    StripPrefix("users/", ToString(u) + ['/'] + rest, ToString(v) + ['/'] + tail);
    NumberHasNo(u, '/');
    NumberHasNo(v, '/');
    SplitAtSeparator(ToString(u), ToString(v), '/', rest, tail);
    ToStringInjective(u, v);
  }

  // ---- cache keys ----

  function ResourceKey(user: int, id: int): string { "resource:" + (ToString(user) + ":" + ToString(id)) }

  function ResourcesKey(user: int): string { "resources:user:" + ToString(user) }

  lemma ResourceKeyInjective(u: int, v: int, i: int, j: int)
    requires ResourceKey(u, i) == ResourceKey(v, j)
    ensures u == v && i == j
  {
    hide ToString;
    var x, y := ToString(u) + [':'] + ToString(i), ToString(v) + [':'] + ToString(j);
    StripPrefix("resource:", x, y);
    NumberHasNo(u, ':');
    NumberHasNo(v, ':');
    SplitAtSeparator(ToString(u), ToString(v), ':', ToString(i), ToString(j));
    ToStringInjective(u, v);
    ToStringInjective(i, j);
  }

  lemma ResourcesKeyInjective(u: int, v: int)
    requires ResourcesKey(u) == ResourcesKey(v)
    ensures u == v
  {
    StripPrefix("resources:user:", ToString(u), ToString(v));
    ToStringInjective(u, v);
  }

  /** Cache keys tell entries apart: one key per user and resource, one list key per user, and no
      list key is a resource key. */
  lemma CacheKeysInjective(u: int, v: int, i: int, j: int)
    ensures ResourceKey(u, i) == ResourceKey(v, j) ==> u == v && i == j
    ensures ResourcesKey(u) == ResourcesKey(v) ==> u == v
    ensures ResourceKey(u, i) != ResourcesKey(v)
  {
    if ResourceKey(u, i) == ResourceKey(v, j) {
      ResourceKeyInjective(u, v, i, j);
    }
    if ResourcesKey(u) == ResourcesKey(v) {
      ResourcesKeyInjective(u, v);
    }
    assert ResourceKey(u, i)[8] == ':' && ResourcesKey(v)[8] == 's';
  }
}
