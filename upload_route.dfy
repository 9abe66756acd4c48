/** The thumbnail upload endpoint: who may upload, which files are accepted, and the object
    key and public URL a stored file gets. Storing the object is the storage collaborator's
    business; its outcome is a parameter. */
module UploadRoute {
  import opened Wrappers
  import opened Entities
  import opened Text
  import opened Numbers
  import opened FormData

  /** A `File` entry of the form: its media type, size in bytes and name. */
  datatype File = File(mediaType: string, size: nat, name: string)

  /** What `formData.get('file')` yields: nothing, a file, or a plain text entry. */
  datatype FileField = NoEntry | FileEntry(file: File) | TextEntry(text: string)

  /** The environment variables the endpoint reads. */
  datatype Env = Env(bucket: Option<string>, region: Option<string>, accessKeyId: Option<string>, secretAccessKey: Option<string>)

  /** `NextResponse.json(...)`: `{ url }` with status 200, or `{ error }` with a status. */
  datatype Response = Uploaded(url: string) | Refused(status: nat, error: string)

  const MaxSize: nat := 5 * 1024 * 1024

  /** What reading `.type.startsWith` of a string entry throws. */
  const TypeOfText := "Cannot read properties of undefined (reading 'startsWith')"
  const NoBucket := "S3_BUCKET_NAME is not configured"
  const NoCredentials := "AWS credentials are not configured. Please set REGION, ACCESS_KEY_ID, and SECRET_ACCESS_KEY in your environment variables."

  /** The characters `/[^a-zA-Z0-9.-]/g` leaves alone. */
  predicate SafeChar(c: char)
  {
    ('a' <= c <= 'z') || ('A' <= c <= 'Z') || ('0' <= c <= '9') || c == '.' || c == '-'
  }

  /** What the replacement writes for one character. The pattern has no `u` flag, so it
      matches single UTF-16 code units, and a character outside the Basic Multilingual Plane,
      two code units long, becomes two `_`. */
  function SanitizeChar(c: char): string
  {
    if SafeChar(c) then [c] else if Text.IsAstral(c) then "__" else "_"
  }

  /** `name.replace(/[^a-zA-Z0-9.-]/g, '_')`: one character out for every code unit in. */
  function Sanitize(name: string): (r: string)
    ensures |r| == Text.Utf16Length(name)
    ensures forall i :: 0 <= i < |r| ==> SafeChar(r[i]) || r[i] == '_'
  {
    if name == [] then [] else SanitizeChar(name[0]) + Sanitize(name[1..])
  }

  /** Sanitising works character by character: the name of a concatenation is the
      concatenation of the names. */
  lemma {:induction false} SanitizeConcat(a: string, b: string)
    ensures Sanitize(a + b) == Sanitize(a) + Sanitize(b)
  {
    if a == [] {
      assert a + b == b;
    } else {
      assert (a + b)[0] == a[0] && (a + b)[1..] == a[1..] + b;
      SanitizeConcat(a[1..], b);
      assert Sanitize(a + b) == SanitizeChar(a[0]) + (Sanitize(a[1..]) + Sanitize(b));
    }
  }

  /** A name made of safe characters and `_` only is left alone. */
  lemma {:induction false} SanitizeKeeps(name: string)
    requires forall i :: 0 <= i < |name| ==> SafeChar(name[i]) || name[i] == '_'
    ensures Sanitize(name) == name
  {
    if name != [] {
      assert !Text.IsAstral(name[0]);
      SanitizeKeeps(name[1..]);
    }
  }

  /** A sanitised name uses only safe characters and `_`, sanitising it again changes nothing,
      and a name is left alone exactly when it has nothing but safe characters and `_`. */
  lemma SanitizeSafe(name: string)
    ensures forall i :: 0 <= i < |Sanitize(name)| ==> SafeChar(Sanitize(name)[i]) || Sanitize(name)[i] == '_'
    ensures Sanitize(Sanitize(name)) == Sanitize(name)
    ensures (forall i :: 0 <= i < |name| ==> SafeChar(name[i]) || name[i] == '_') <==> Sanitize(name) == name
  {
    SanitizeKeeps(Sanitize(name));
    if forall i :: 0 <= i < |name| ==> SafeChar(name[i]) || name[i] == '_' {
      SanitizeKeeps(name);
    }
  }

  /** `${timestamp}-${sanitised name}`. */
  function FileName(now: nat, name: string): string
  {
    NatToString(now) + "-" + Sanitize(name)
  }

  /** `thumbnails/${filename}`. */
  function ObjectKey(now: nat, name: string): string
  {
    "thumbnails/" + FileName(now, name)
  }

  /** `https://${bucketName}.s3.${region}.amazonaws.com/${key}`. */
  function PublicUrl(bucket: string, region: string, key: string): string
  {
    "https://" + bucket + ".s3." + region + ".amazonaws.com/" + key
  }

  /** `getS3Client`'s configuration check: every credential variable set and non-empty. */
  predicate HasCredentials(env: Env)
  {
    Truthy(env.region) && Truthy(env.accessKeyId) && Truthy(env.secretAccessKey)
  }

  /** `POST`: the 401 and 400 answers in order, then the configuration checks, the store
      (whose thrown message, if any, is `storeError`) and the URL of the stored object; every
      thrown error becomes a 500 with its message. */
  function Post(caller: Option<Session>, field: FileField, env: Env, now: nat, storeError: Option<string>): (r: Response)
    ensures !IsInstructor(caller) ==> r == Refused(401, "Unauthorized")
    ensures r.Refused? && r.status == 400 ==>
      r.error in {"No file provided", "Only image files are allowed", "File size must be less than 5MB"}
    ensures IsInstructor(caller) && (field.NoEntry? || field == TextEntry("")) ==>
      r == Refused(400, "No file provided")
    ensures IsInstructor(caller) && field.TextEntry? && field.text != "" ==> r == Refused(500, TypeOfText)
    ensures IsInstructor(caller) && field.FileEntry? && !StartsWith(field.file.mediaType, "image/") ==>
      r == Refused(400, "Only image files are allowed")
    ensures IsInstructor(caller) && field.FileEntry? && StartsWith(field.file.mediaType, "image/")
            && field.file.size > MaxSize ==>
      r == Refused(400, "File size must be less than 5MB")
    ensures IsInstructor(caller) && field.FileEntry? && StartsWith(field.file.mediaType, "image/")
            && field.file.size <= MaxSize && Truthy(env.bucket) ==>
      && (!HasCredentials(env) ==> r == Refused(500, NoCredentials))
      && (HasCredentials(env) && storeError.Some? ==> r == Refused(500, storeError.value))
  {
    if !IsInstructor(caller) then Refused(401, "Unauthorized")
    else match field
      case NoEntry => Refused(400, "No file provided")
      case TextEntry(t) => if t == "" then Refused(400, "No file provided") else Refused(500, TypeOfText)
      case FileEntry(file) =>
        if !StartsWith(file.mediaType, "image/") then Refused(400, "Only image files are allowed")
        else if file.size > MaxSize then Refused(400, "File size must be less than 5MB")
        else if !Truthy(env.bucket) then Refused(500, NoBucket)
        else if !HasCredentials(env) then Refused(500, NoCredentials)
        else if storeError.Some? then Refused(500, storeError.value)
        else Uploaded(PublicUrl(env.bucket.value, env.region.value, ObjectKey(now, file.name)))
  }

  /** An upload succeeds exactly when an instructor sends an image of at most 5 MB, the
      storage is configured and the store succeeds; the URL then names the bucket, the region
      and the object key built from the clock and the sanitised file name. */
  lemma PostSucceeds(caller: Option<Session>, field: FileField, env: Env, now: nat, storeError: Option<string>)
    ensures var r := Post(caller, field, env, now, storeError);
      && (r.Uploaded? <==>
           && IsInstructor(caller) && field.FileEntry?
           && StartsWith(field.file.mediaType, "image/") && field.file.size <= MaxSize
           && Truthy(env.bucket) && HasCredentials(env) && storeError.None?)
      && (r.Uploaded? ==>
           r.url == "https://" + env.bucket.value + ".s3." + env.region.value + ".amazonaws.com/" + "thumbnails/"
                    + NatToString(now) + "-" + Sanitize(field.file.name))
  {
    var r := Post(caller, field, env, now, storeError);
    if r.Uploaded? {
      var b, g, n := env.bucket.value, env.region.value, field.file.name;
      Regroup("https://" + b + ".s3." + g + ".amazonaws.com/", "thumbnails/", NatToString(now), "-", Sanitize(n));
    }
  }

  lemma Regroup(p: string, k: string, x: string, d: string, y: string)
    ensures p + (k + (x + d + y)) == p + k + x + d + y
  {
  }

  /** The size bound is inclusive: exactly 5 MB passes, one byte more is refused. */
  lemma SizeBoundary(caller: Option<Session>, mediaType: string, name: string, env: Env, now: nat, storeError: Option<string>)
    requires IsInstructor(caller) && StartsWith(mediaType, "image/")
    ensures Post(caller, FileEntry(File(mediaType, MaxSize, name)), env, now, storeError).Refused? ==>
      Post(caller, FileEntry(File(mediaType, MaxSize, name)), env, now, storeError).status == 500
    ensures Post(caller, FileEntry(File(mediaType, MaxSize + 1, name)), env, now, storeError)
         == Refused(400, "File size must be less than 5MB")
  {
  }

  /** The media type is checked before the size: a large non-image is refused as a non-image. */
  lemma TypeBeforeSize(caller: Option<Session>, file: File, env: Env, now: nat, storeError: Option<string>)
    requires IsInstructor(caller) && !StartsWith(file.mediaType, "image/")
    ensures Post(caller, FileEntry(file), env, now, storeError) == Refused(400, "Only image files are allowed")
  {
  }

  /** A missing bucket surfaces as a 500 carrying its own message, before the credentials. */
  lemma MissingBucketReported(caller: Option<Session>, file: File, env: Env, now: nat, storeError: Option<string>)
    requires IsInstructor(caller) && StartsWith(file.mediaType, "image/") && file.size <= MaxSize
    requires !Truthy(env.bucket)
    ensures Post(caller, FileEntry(file), env, now, storeError) == Refused(500, NoBucket)
  {
  }

  /** The digits of the timestamp end where the `-` separator starts. */
  lemma {:induction false} LeadingDigitsOfNumeral(n: nat, rest: string)
    ensures LeadingDigits(NatToString(n) + "-" + rest, 10) == |NatToString(n)|
  {
    var s := NatToString(n) + "-" + rest;
    LeadingDigitsSplit(NatToString(n), "-" + rest);
    assert s == NatToString(n) + ("-" + rest);
  }

  lemma {:induction false} LeadingDigitsSplit(d: string, t: string)
    requires forall i :: 0 <= i < |d| ==> IsDecimalDigit(d[i])
    requires t != [] && t[0] == '-'
    ensures LeadingDigits(d + t, 10) == |d|
  {
    if d != [] {
      assert (d + t)[1..] == d[1..] + t;
      LeadingDigitsSplit(d[1..], t);
    } else {
      assert d + t == t;
    }
  }

  /** The file name gives back its timestamp: `parseInt` reads it up to the separator. */
  lemma FileNameTimestamp(now: nat, name: string)
    ensures ParseInt(FileName(now, name)) == Some(now)
  {
    var d := NatToString(now);
    var s := FileName(now, name);
    LeadingDigitsOfNumeral(now, Sanitize(name));
    NumeralOfNatToString(now);
    assert !IsJsWhitespace(s[0]) && !(s[0] == '-' || s[0] == '+');
    assert TrimStart(s) == s;
    assert !HasHexPrefix(s) by {
      if |d| >= 2 {
        assert s[1] == d[1];
      } else {
        assert s[1] == '-';
      }
    }
    assert s[..|d|] == d;
  }

  /** Two uploads at different times get different keys. */
  lemma KeysDiffer(m: nat, n: nat, a: string, b: string)
    requires m != n
    ensures ObjectKey(m, a) != ObjectKey(n, b)
  {
    FileNameTimestamp(m, a);
    FileNameTimestamp(n, b);
    assert FileName(m, a) == ObjectKey(m, a)[11..];
    assert FileName(n, b) == ObjectKey(n, b)[11..];
  }
}
