/** The Cloudinary upload client: the unsigned upload with a preset, the
    signed upload whose parameters are signed with the API secret, and the
    choice of the URL in the reply. The HTTP exchange is a parameter (send)
    that maps the posted form to the decoded reply or a transport error;
    SHA-1 and its hex encoding are the parameter digest; the clock is the
    Unix time handed to UploadSigned. */
module Cloudinary {
  import opened Domain
  import opened Text

  datatype Client = Client(cloudName: string, apiKey: string, apiSecret: string, uploadPreset: string, folder: string)

  /** The two URL fields of the decoded reply; a missing field is empty. */
  datatype UploadReply = UploadReply(secureUrl: string, url: string)

  /** What is posted to the upload endpoint of the cloud. An empty folder
      of an unsigned form is not posted. */
  datatype Form =
    | UnsignedForm(cloudName: string, filename: string, file: seq<bv8>, preset: string, folder: string)
    | SignedForm(cloudName: string, filename: string, file: seq<bv8>, params: map<string, string>, apiKey: string, signature: string)

  // ---------------------------------------------------------------------
  // The reply
  // ---------------------------------------------------------------------

  /** The secure URL when the reply has one, else the plain URL, else the
      error "cloudinary response missing url"; a failed exchange passes its
      error through. */
  function UrlOf(reply: Result<UploadReply>): (r: Result<string>)
    ensures r.Ok? ==> r.value != [] && reply.Ok? && (r.value == reply.value.secureUrl || r.value == reply.value.url)
    ensures reply.Ok? && reply.value.secureUrl != [] ==> r == Ok(reply.value.secureUrl)
    ensures r.Err? <==> reply.Err? || (reply.value.secureUrl == [] && reply.value.url == [])
  {
    match reply
    case Err(e) => Err(e)
    case Ok(ur) =>
      if ur.secureUrl != [] then Ok(ur.secureUrl)
      else if ur.url != [] then Ok(ur.url)
      else Err(Invalid(MissingUrl))
  }

  // ---------------------------------------------------------------------
  // Unsigned upload
  // ---------------------------------------------------------------------

  /** UploadUnsigned: the preset is required; the folder is posted only when
      it is set. */
  function UploadUnsigned(c: Client, file: seq<bv8>, filename: string, send: Form -> Result<UploadReply>): (r: Result<string>)
    ensures c.uploadPreset == [] ==> r == Err(Invalid(PresetRequired))
    ensures c.uploadPreset != [] ==> r == UrlOf(send(UnsignedForm(c.cloudName, filename, file, c.uploadPreset, c.folder)))
  {
    if c.uploadPreset == [] then Err(Invalid(PresetRequired))
    else UrlOf(send(UnsignedForm(c.cloudName, filename, file, c.uploadPreset, c.folder)))
  }

  // ---------------------------------------------------------------------
  // Signed parameters
  // ---------------------------------------------------------------------

  /** strconv.FormatInt(n, 10) */
  function FormatInt(n: int): (r: string)
    ensures r != []
  {
    if n < 0 then "-" + Decimal(-n) else Decimal(n)
  }

  /** The signed parameters: the folder when set, every option whose value
      is not empty, and the timestamp, which overrides an option of that
      name. */
  function SignedParams(folder: string, opts: map<string, string>, timestamp: string): map<string, string> {
    ((if folder != [] then map["folder" := folder] else map[]) + (map k | k in opts && opts[k] != [] :: opts[k]))
      ["timestamp" := timestamp]
  }

  lemma SignedParamsShape(folder: string, opts: map<string, string>, timestamp: string)
    ensures var p := SignedParams(folder, opts, timestamp);
      && "timestamp" in p && p["timestamp"] == timestamp
      && ("folder" in p <==> folder != [] || ("folder" in opts && opts["folder"] != []))
      && (forall k :: k in p && k != "timestamp" ==> p[k] != [])
      && (forall k :: k in p && k != "timestamp" && k != "folder" ==> k in opts && p[k] == opts[k])
      && (forall k :: k in opts && opts[k] != [] ==> k in p)
  {
  }

  /** The merge of the options into the parameters, one option at a time in
      the map's iteration order. */
  method MergeParams(folder: string, opts: map<string, string>, timestamp: string) returns (params: map<string, string>)
    ensures params == SignedParams(folder, opts, timestamp)
  {
    var base: map<string, string> := if folder != [] then map["folder" := folder] else map[];
    var kept: map<string, string> := map[];
    var rest := opts.Keys;
    while rest != {}
      invariant rest <= opts.Keys
      invariant kept == map k | k in opts && k !in rest && opts[k] != [] :: opts[k]
      decreases rest
    {
      var k :| k in rest;
      if opts[k] != [] {
        kept := kept[k := opts[k]];
      }
      rest := rest - {k};
    }
    params := (base + kept)["timestamp" := timestamp];
  }

  // ---------------------------------------------------------------------
  // Key order
  // ---------------------------------------------------------------------

  predicate StrictlySorted(s: seq<string>) {
    forall i, j :: 0 <= i < j < |s| ==> Less(s[i], s[j])
  }

  /** m is the smallest string of s in byte order. */
  predicate IsLeast(m: string, s: set<string>) {
    m in s && forall x :: x in s && x != m ==> Less(m, x)
  }

  lemma {:induction false} LeastExists(s: set<string>)
    requires s != {}
    ensures exists m :: IsLeast(m, s)
    decreases |s|
  {
    var x :| x in s;
    if s != {x} {
      LeastExists(s - {x});
      var m :| IsLeast(m, s - {x});
      if Less(x, m) {
        forall y | y in s && y != x ensures Less(x, y) {
          if y != m { LessTransitive(x, m, y); }
        }
        assert IsLeast(x, s);
      } else {
        LessTotal(x, m);
        assert IsLeast(m, s);
      }
    } else {
      assert IsLeast(x, s);
    }
  }

  /** The keys of s in ascending byte order. */
  ghost function SortedKeys(s: set<string>): (r: seq<string>)
    ensures StrictlySorted(r)
    ensures forall x :: x in r <==> x in s
    decreases |s|
  {
    if s == {} then []
    else
      LeastExists(s);
      var m :| IsLeast(m, s);
      var rest := SortedKeys(s - {m});
      ConsSorted(m, rest);
      [m] + rest
  }

  lemma ConsSorted(m: string, rest: seq<string>)
    requires StrictlySorted(rest)
    requires forall x :: x in rest ==> Less(m, x)
    ensures StrictlySorted([m] + rest)
  {
    forall i, j | 0 <= i < j < |[m] + rest| ensures Less(([m] + rest)[i], ([m] + rest)[j]) {
      if i == 0 {
        assert ([m] + rest)[j] == rest[j - 1];
      }
    }
  }

  /** A strictly ascending sequence is determined by its elements, so the
      order of the keys does not depend on the map's iteration order. */
  lemma {:induction false} SortedUnique(a: seq<string>, b: seq<string>)
    requires StrictlySorted(a) && StrictlySorted(b)
    requires forall x :: x in a <==> x in b
    ensures a == b
    decreases |a|
  {
    // Either b is empty or its first element is in a.
    assert b == [] || b[0] in b;
    if a != [] {
      assert a[0] in b;
      assert b != [];
      if a[0] != b[0] {
        assert b[0] in a;
        var i :| 0 <= i < |a| && a[i] == b[0];
        var j :| 0 <= j < |b| && b[j] == a[0];
        LessAsymmetric(a[0], a[i]);
      }
      forall x ensures x in a[1..] <==> x in b[1..] {
        if x in a[1..] {
          var i :| 1 <= i < |a| && a[i] == x;
          if x == a[0] { LessIrreflexive(x); }
          assert x in b;
        }
        if x in b[1..] {
          var j :| 1 <= j < |b| && b[j] == x;
          if x == b[0] { LessIrreflexive(x); }
          assert x in a;
        }
      }
      SortedUnique(a[1..], b[1..]);
      assert a == [a[0]] + a[1..] && b == [b[0]] + b[1..];
    }
  }

  /** sort.Strings on the distinct keys of a map: the keys in ascending
      byte order. */
  method SortStrings(keys: seq<string>) returns (sorted: seq<string>)
    ensures StrictlySorted(sorted)
    ensures forall x :: x in sorted <==> x in keys
  {
    var rest := set k | k in keys;
    sorted := [];
    while rest != {}
      invariant StrictlySorted(sorted)
      invariant forall x :: x in keys <==> x in sorted || x in rest
      invariant forall i, x :: 0 <= i < |sorted| && x in rest ==> Less(sorted[i], x)
      decreases rest
    {
      LeastExists(rest);
      var m :| IsLeast(m, rest);
      forall i | 0 <= i < |sorted| ensures sorted[i] != m {
        LessIrreflexive(m);
      }
      sorted := sorted + [m];
      rest := rest - {m};
    }
  }

  // ---------------------------------------------------------------------
  // The signature
  // ---------------------------------------------------------------------

  /** "k1=v1&k2=v2&..." for the keys in the given order. */
  function Render(params: map<string, string>, keys: seq<string>): string
    requires forall k :: k in keys ==> k in params
  {
    if keys == [] then []
    else
      var n := |keys| - 1;
      var pair := keys[n] + "=" + params[keys[n]];
      if n == 0 then pair else Render(params, keys[..n]) + "&" + pair
  }

  /** The text that is signed: the pairs in ascending key order, then the
      secret. */
  ghost function PreImage(params: map<string, string>, secret: string): string {
    Render(params, SortedKeys(params.Keys)) + secret
  }

  /** With no parameters the pre-image is the secret itself. */
  lemma PreImageEmpty(secret: string)
    ensures PreImage(map[], secret) == secret
  {
  }

  /** Two keys are ordered smaller first. */
  lemma SortedKeysTwo(k1: string, k2: string)
    requires Less(k1, k2)
    ensures SortedKeys({k1, k2}) == [k1, k2]
  {
    LessIrreflexive(k1);
    assert StrictlySorted([k1, k2]);
    SortedUnique([k1, k2], SortedKeys({k1, k2}));
  }

  lemma RenderTwo(params: map<string, string>, k1: string, k2: string)
    requires k1 in params && k2 in params
    ensures Render(params, [k1, k2]) == k1 + "=" + params[k1] + "&" + k2 + "=" + params[k2]
  {
    assert [k1, k2][..1] == [k1];
  }

  /** Two parameters are written smaller key first, joined by one '&', with
      the secret right after the last value. */
  lemma PreImageTwo(k1: string, v1: string, k2: string, v2: string, secret: string)
    requires Less(k1, k2)
    ensures PreImage(map[k2 := v2, k1 := v1], secret) == k1 + "=" + v1 + "&" + k2 + "=" + v2 + secret
  {
    LessIrreflexive(k1);
    var params := map[k2 := v2, k1 := v1];
    assert params.Keys == {k1, k2};
    SortedKeysTwo(k1, k2);
    RenderTwo(params, k1, k2);
  }

  /** The keys of a map, in the map's iteration order. */
  method CollectKeys(params: map<string, string>) returns (keys: seq<string>)
    ensures forall x :: x in keys <==> x in params
  {
    keys := [];
    var rest := params.Keys;
    while rest != {}
      invariant rest <= params.Keys
      invariant forall x :: x in params <==> x in keys || x in rest
      decreases rest
    {
      var k :| k in rest;
      keys := keys + [k];
      rest := rest - {k};
    }
  }

  /** One more key rendered: its pair follows the earlier ones after '&'. */
  lemma RenderStep(params: map<string, string>, keys: seq<string>, i: nat)
    requires i < |keys|
    requires forall k :: k in keys ==> k in params
    ensures Render(params, keys[..i + 1])
         == (if i == 0 then [] else Render(params, keys[..i]) + "&") + keys[i] + "=" + params[keys[i]]
  {
    assert keys[..i + 1][..i] == keys[..i];
  }

  /** The buffer loop of sign: the pairs in the given order, '&' between
      two pairs, then the secret. */
  method Join(params: map<string, string>, keys: seq<string>, secret: string) returns (b: string)
    requires forall k :: k in keys ==> k in params
    ensures b == Render(params, keys) + secret
  {
    b := [];
    var i := 0;
    while i < |keys|
      invariant 0 <= i <= |keys|
      invariant b == Render(params, keys[..i]) + (if 0 < i < |keys| then "&" else "")
    {
      RenderStep(params, keys, i);
      b := b + keys[i] + "=" + params[keys[i]];
      if i < |keys| - 1 {
        b := b + "&";
      }
      i := i + 1;
    }
    assert keys[..i] == keys;
    b := b + secret;
  }

  /** sign: the keys are collected in the map's iteration order, sorted,
      and written as key=value pairs separated by '&'; the secret follows
      and the digest of the whole is the signature. */
  method Sign(params: map<string, string>, secret: string, digest: string -> string) returns (signature: string)
    ensures signature == digest(PreImage(params, secret))
  {
    var keys := CollectKeys(params);
    keys := SortStrings(keys);
    SortedUnique(keys, SortedKeys(params.Keys));
    var b := Join(params, keys, secret);
    signature := digest(b);
  }

  // ---------------------------------------------------------------------
  // Signed upload
  // ---------------------------------------------------------------------

  /** What UploadSigned returns. */
  ghost function SignedUpload(c: Client, file: seq<bv8>, filename: string, opts: map<string, string>, unixSeconds: int,
                              digest: string -> string, send: Form -> Result<UploadReply>): Result<string>
  {
    if c.apiKey == [] || c.apiSecret == [] then Err(Invalid(CredentialsRequired))
    else
      var params := SignedParams(c.folder, opts, FormatInt(unixSeconds));
      UrlOf(send(SignedForm(c.cloudName, filename, file, params, c.apiKey, digest(PreImage(params, c.apiSecret)))))
  }

  /** Without both the key and the secret nothing is sent. */
  lemma SignedUploadNeedsCredentials(c: Client, file: seq<bv8>, filename: string, opts: map<string, string>, unixSeconds: int,
                                     digest: string -> string, send: Form -> Result<UploadReply>)
    ensures var r := SignedUpload(c, file, filename, opts, unixSeconds, digest, send);
      && (c.apiKey == [] || c.apiSecret == [] ==> r == Err(Invalid(CredentialsRequired)))
      && (r.Ok? ==> c.apiKey != [] && c.apiSecret != [] && r.value != [])
  {
  }

  method UploadSigned(c: Client, file: seq<bv8>, filename: string, opts: map<string, string>, unixSeconds: int,
                      digest: string -> string, send: Form -> Result<UploadReply>) returns (r: Result<string>)
    ensures r == SignedUpload(c, file, filename, opts, unixSeconds, digest, send)
  {
    if c.apiKey == [] || c.apiSecret == [] {
      return Err(Invalid(CredentialsRequired));
    }
    var params := MergeParams(c.folder, opts, FormatInt(unixSeconds));
    var signature := Sign(params, c.apiSecret, digest);
    var reply := send(SignedForm(c.cloudName, filename, file, params, c.apiKey, signature));
    r := UrlOf(reply);
  }
}
