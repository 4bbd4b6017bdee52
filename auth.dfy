/** The uploader allow-list and the session callback (lib/auth.ts). */
module Auth {
  import opened Wrappers

  // ---------------------------------------------------------------------
  // String helpers with JavaScript's semantics
  // ---------------------------------------------------------------------

  /** The characters `String.prototype.trim` removes: white space and line terminators. */
  predicate IsJsWhitespace(c: char) {
    || c == '\t' || c == '\U{000B}' || c == '\U{000C}' || c == ' ' || c == '\U{00A0}' || c == '\U{FEFF}'
    || c == '\n' || c == '\r' || c == '\U{2028}' || c == '\U{2029}'
    || c == '\U{1680}' || ('\U{2000}' <= c <= '\U{200A}') || c == '\U{202F}' || c == '\U{205F}' || c == '\U{3000}'
  }

  /** `s` has no white space at either end. */
  predicate IsTrimmed(s: string) {
    s == [] || (!IsJsWhitespace(s[0]) && !IsJsWhitespace(s[|s| - 1]))
  }

  function TrimStart(s: string): (r: string)
    ensures |r| <= |s| && r == s[|s| - |r|..]
    ensures forall i :: 0 <= i < |s| - |r| ==> IsJsWhitespace(s[i])
    ensures r == [] || !IsJsWhitespace(r[0])
    decreases |s|
  {
    if |s| > 0 && IsJsWhitespace(s[0]) then TrimStart(s[1..]) else s
  }

  function TrimEnd(s: string): (r: string)
    ensures |r| <= |s| && r == s[..|r|]
    ensures forall i :: |r| <= i < |s| ==> IsJsWhitespace(s[i])
    ensures r == [] || !IsJsWhitespace(r[|r| - 1])
    decreases |s|
  {
    if |s| > 0 && IsJsWhitespace(s[|s| - 1]) then TrimEnd(s[..|s| - 1]) else s
  }

  /** `r` is `s[lo..]` cut short, with only white space of `s` left out at either end. */
  ghost predicate InnerPart(s: string, r: string, lo: int) {
    && 0 <= lo <= lo + |r| <= |s|
    && r == s[lo..lo + |r|]
    && (forall k :: 0 <= k < lo ==> IsJsWhitespace(s[k]))
    && (forall k :: lo + |r| <= k < |s| ==> IsJsWhitespace(s[k]))
  }

  /**
   * `s.trim()`: the part of `s` between its leading and its trailing white
   * space.
   */
  function Trim(s: string): (r: string)
    ensures IsTrimmed(r)
    ensures exists lo :: InnerPart(s, r, lo)
  {
    var t := TrimStart(s);
    var r := TrimEnd(t);
    InnerOfBothEnds(s, t, r);
    r
  }

  /**
   * Cutting leading white space of `s` down to `t`, then trailing white
   * space of `t` down to `r`, leaves the inner part of `s`.
   */
  lemma InnerOfBothEnds(s: string, t: string, r: string)
    requires |t| <= |s| && t == s[|s| - |t|..]
    requires forall i :: 0 <= i < |s| - |t| ==> IsJsWhitespace(s[i])
    requires t == [] || !IsJsWhitespace(t[0])
    requires |r| <= |t| && r == t[..|r|]
    requires forall i :: |r| <= i < |t| ==> IsJsWhitespace(t[i])
    requires r == [] || !IsJsWhitespace(r[|r| - 1])
    ensures IsTrimmed(r)
    ensures InnerPart(s, r, |s| - |t|)
  {
    var lo := |s| - |t|;
    assert s[lo..][..|r|] == s[lo..lo + |r|];
    if r != [] {
      assert r[0] == t[0];
    }
    forall k | lo + |r| <= k < |s|
      ensures IsJsWhitespace(s[k])
    {
      assert s[k] == t[k - lo];
    }
  }

  /** Trimming adds no character. */
  lemma TrimKeepsOut(s: string, c: char)
    requires c !in s
    ensures c !in Trim(s)
  {
    var r := Trim(s);
    var lo :| InnerPart(s, r, lo);
  }

  /** Trimming a string without white space at its ends changes nothing. */
  lemma TrimOfTrimmed(s: string)
    requires IsTrimmed(s)
    ensures Trim(s) == s
  {
  }

  /** Trimming is idempotent. */
  lemma TrimIdempotent(s: string)
    ensures Trim(Trim(s)) == Trim(s)
  {
    TrimOfTrimmed(Trim(s));
  }

  function Occurrences(s: string, c: char): nat
    decreases |s|
  {
    if |s| == 0 then 0 else (if s[0] == c then 1 else 0) + Occurrences(s[1..], c)
  }

  /** `s.split(sep)` for a one-character separator: the pieces between separators. */
  function Split(s: string, sep: char): (parts: seq<string>)
    ensures |parts| == Occurrences(s, sep) + 1
    ensures forall i :: 0 <= i < |parts| ==> sep !in parts[i]
    decreases |s|
  {
    if |s| == 0 then [""]
    else
      var rest := Split(s[1..], sep);
      if s[0] == sep then [""] + rest
      else [[s[0]] + rest[0]] + rest[1..]
  }

  /** `parts.join(sep)`. */
  function Join(parts: seq<string>, sep: char): string
    requires |parts| > 0
    decreases |parts|
  {
    if |parts| == 1 then parts[0] else parts[0] + [sep] + Join(parts[1..], sep)
  }

  /** Splitting loses nothing: joining the pieces gives the string back. */
  lemma {:induction false} JoinSplit(s: string, sep: char)
    ensures Join(Split(s, sep), sep) == s
    decreases |s|
  {
    if |s| > 0 {
      var rest := Split(s[1..], sep);
      JoinSplit(s[1..], sep);
      if s[0] == sep {
        assert ([""] + rest)[1..] == rest;
      } else {
        var parts := [[s[0]] + rest[0]] + rest[1..];
        if |rest| > 1 {
          assert parts[1..] == rest[1..];
          assert Join(rest, sep) == rest[0] + [sep] + Join(rest[1..], sep);
        }
        assert s == [s[0]] + s[1..];
      }
    }
  }

  /** Splitting a separator-free prefix onto the rest extends the first piece. */
  lemma {:induction false} SplitPrefix(p: string, t: string, sep: char)
    requires sep !in p
    ensures Split(p + t, sep) == [p + Split(t, sep)[0]] + Split(t, sep)[1..]
    decreases |p|
  {
    if |p| > 0 {
      SplitPrefix(p[1..], t, sep);
      assert (p + t)[1..] == p[1..] + t;
      assert (p + t)[0] == p[0];
      assert [p[0]] + (p[1..] + Split(t, sep)[0]) == p + Split(t, sep)[0];
    } else {
      assert p + t == t;
      assert p + Split(t, sep)[0] == Split(t, sep)[0];
      assert Split(t, sep) == [Split(t, sep)[0]] + Split(t, sep)[1..];
    }
  }

  /** Splitting undoes joining separator-free pieces. */
  lemma {:induction false} SplitJoin(parts: seq<string>, sep: char)
    requires |parts| > 0
    requires forall i :: 0 <= i < |parts| ==> sep !in parts[i]
    ensures Split(Join(parts, sep), sep) == parts
    decreases |parts|
  {
    if |parts| == 1 {
      SplitPrefix(parts[0], "", sep);
      assert parts[0] + "" == parts[0];
    } else {
      var tail := Join(parts[1..], sep);
      SplitJoin(parts[1..], sep);
      assert ([sep] + tail)[1..] == tail;
      assert Split([sep] + tail, sep) == [""] + parts[1..];
      SplitPrefix(parts[0], [sep] + tail, sep);
      assert parts[0] + [sep] + tail == parts[0] + ([sep] + tail);
      assert parts[0] + "" == parts[0];
    }
  }

  // ---------------------------------------------------------------------
  // The allow-list (lines 14-15)
  // ---------------------------------------------------------------------

  /** `process.env.ALLOWED_UPLOADERS || ""`. */
  function RawList(env: Option<string>): string {
    env.GetOr("")
  }

  /** `split(',').map(email => email.trim())`. */
  function AllowedUploaders(env: Option<string>): (list: seq<string>)
    ensures |list| == Occurrences(RawList(env), ',') + 1
    ensures forall i :: 0 <= i < |list| ==> IsTrimmed(list[i]) && ',' !in list[i]
    ensures forall i :: 0 <= i < |list| ==> list[i] == Trim(Split(RawList(env), ',')[i])
  {
    var parts := Split(RawList(env), ',');
    var list := seq(|parts|, i requires 0 <= i < |parts| => Trim(parts[i]));
    forall i | 0 <= i < |list| ensures ',' !in list[i] {
      TrimKeepsOut(parts[i], ',');
    }
    list
  }

  /** With the variable unset or empty, the list is the single empty string. */
  lemma UnsetListIsEmptyString()
    ensures AllowedUploaders(None) == [""]
    ensures AllowedUploaders(Some("")) == [""]
  {
  }

  // ---------------------------------------------------------------------
  // The session callback (lines 30-35)
  // ---------------------------------------------------------------------

  datatype User = User(
    id: Option<string>,
    name: Option<string>,
    email: Option<string>,
    image: Option<string>,
    isAllowedUploader: Option<bool>)

  datatype Session = Session(user: Option<User>, expires: string)

  /** `ALLOWED_UPLOADERS.includes(email || "")`: exact, case-sensitive, untrimmed. */
  function IsAllowedUploader(email: Option<string>, allowed: seq<string>): (b: bool)
    ensures b <==> exists i :: 0 <= i < |allowed| && allowed[i] == email.GetOr("")
  {
    email.GetOr("") in allowed
  }

  /** `callbacks.session`: marks the user as an allowed uploader or not. */
  function SessionCallback(session: Session, allowed: seq<string>): (r: Session)
    ensures session.user.None? ==> r == session
    ensures session.user.Some? ==> r.user.Some?
    ensures session.user.Some? ==>
              r.user.value.isAllowedUploader == Some(IsAllowedUploader(session.user.value.email, allowed))
    ensures session.user.Some? ==>
              r.user.value.(isAllowedUploader := session.user.value.isAllowedUploader) == session.user.value
    ensures r.expires == session.expires
  {
    match session.user
    case None => session
    case Some(u) =>
      session.(user := Some(u.(isAllowedUploader := Some(IsAllowedUploader(u.email, allowed)))))
  }

  /**
   * A user without an email address is let through exactly when the list
   * holds the empty string, which it does when the variable is unset.
   */
  lemma EmailLessUser(allowed: seq<string>, u: User)
    requires u.email.None? || u.email == Some("")
    ensures IsAllowedUploader(u.email, allowed) <==> "" in allowed
    ensures IsAllowedUploader(u.email, AllowedUploaders(None))
  {
    UnsetListIsEmptyString();
  }

  /**
   * The email is not trimmed before the lookup while the list entries
   * are: an email with white space at either end is never allowed.
   */
  lemma UntrimmedEmailRejected(env: Option<string>, email: string)
    requires email != [] && (IsJsWhitespace(email[0]) || IsJsWhitespace(email[|email| - 1]))
    ensures !IsAllowedUploader(Some(email), AllowedUploaders(env))
  {
    var list := AllowedUploaders(env);
    assert !IsTrimmed(email);
    forall i | 0 <= i < |list|
      ensures list[i] != email
    {
      assert IsTrimmed(list[i]);
    }
  }
}
