/** Built-in configuration (`constants.rs`): a default is kept in the
    executable as a NUL-padded byte string `NAME__value`, so that it can be
    edited in place, and an environment variable overrides it. The STUN/TURN
    default is a `;`-separated list of `url&username&password` entries. */
module Constants {
  import opened Base

  const NUL: char := '\0'

  /** `n` NUL characters. */
  function Padding(n: nat): (r: string)
    ensures |r| == n && forall i :: 0 <= i < n ==> r[i] == NUL
    ensures n > 0 ==> NUL in r
  {
    var r := seq(n, _ => NUL);
    assert n > 0 ==> r[0] == NUL;
    r
  }

  /** A byte string holding a NUL, which ends the C string at its start. */
  type CBytes = s: string | NUL in s witness [NUL]

  /** The signalling server default, as stored in the executable. */
  const SIGNAL_DEFAULT: CBytes := "SIGNAL" + "__" + "wss://icepipe.fly.dev/signaling/" + Padding(65)

  /** The STUN server default, as stored in the executable. */
  const STUN_DEFAULT: CBytes := "STUN" + "__" + "stun:stun.l.google.com:19302" + Padding(183)

  /** The error raised when neither the variable nor the default gives a value. */
  function MissingMessage(env: string): string {
    "Must provide environment variable " + env + "."
  }

  /** Position of the first `c` in `s`. */
  function IndexOf(s: string, c: char): (r: nat)
    requires c in s
    ensures r < |s| && s[r] == c && c !in s[..r]
  {
    if s[0] == c then 0
    else
      assert s == [s[0]] + s[1..];
      var i := IndexOf(s[1..], c);
      assert s[..i + 1] == [s[0]] + s[1..][..i];
      i + 1
  }

  /** `str::split` on one character: the pieces between occurrences of
      `sep`. There is always at least one piece, possibly empty. */
  function Split(s: string, sep: char): (r: seq<string>)
    ensures |r| >= 1
    ensures forall i :: 0 <= i < |r| ==> sep !in r[i]
    ensures Join(r, sep) == s
    decreases |s|
  {
    if sep !in s then [s]
    else
      var i := IndexOf(s, sep);
      var rest := Split(s[i + 1..], sep);
      assert s == s[..i] + [sep] + s[i + 1..];
      [s[..i]] + rest
  }

  /** The pieces glued back together with `sep` between them. */
  function Join(parts: seq<string>, sep: char): string
    requires |parts| >= 1
    decreases |parts|
  {
    if |parts| == 1 then parts[0] else parts[0] + [sep] + Join(parts[1..], sep)
  }

  /** Splitting undoes joining when no piece holds the separator. */
  lemma {:induction false} SplitJoin(parts: seq<string>, sep: char)
    requires |parts| >= 1
    requires forall i :: 0 <= i < |parts| ==> sep !in parts[i]
    ensures Split(Join(parts, sep), sep) == parts
    decreases |parts|
  {
    var s := Join(parts, sep);
    if |parts| == 1 {
      assert sep !in s;
    } else {
      var tail := Join(parts[1..], sep);
      assert s == parts[0] + [sep] + tail;
      assert s[|parts[0]|] == sep;
      assert s[..|parts[0]|] == parts[0];
      assert sep in s;
      var i := IndexOf(s, sep);
      assert i == |parts[0]|;
      assert s[i + 1..] == tail;
      SplitJoin(parts[1..], sep);
      assert Split(s, sep) == [parts[0]] + parts[1..];
    }
  }

  /** The C string at the start of `bytes`: everything before the first NUL.
      The stored defaults always hold one. */
  function CString(bytes: string): (r: string)
    requires NUL in bytes
    ensures |r| < |bytes| && NUL !in r && bytes[..|r| + 1] == r + [NUL]
  {
    bytes[..IndexOf(bytes, NUL)]
  }

  /** Position of the first `__` in `s`, if any. */
  function FindPrefixEnd(s: string): (r: Option<nat>)
    ensures r.Some? ==> r.value + 2 <= |s| && s[r.value] == '_' && s[r.value + 1] == '_'
    ensures r.Some? ==> forall j :: 0 <= j < r.value ==> !(s[j] == '_' && s[j + 1] == '_')
    ensures r.None? ==> forall j :: 0 <= j < |s| - 1 ==> !(s[j] == '_' && s[j + 1] == '_')
    decreases |s|
  {
    if |s| < 2 then None
    else if s[0] == '_' && s[1] == '_' then Some(0)
    else
      match FindPrefixEnd(s[1..])
      case None => None
      case Some(i) => Some(i + 1)
  }

  /** `bytes_to_str`. `env` is the variable's value, `None` when it is unset
      or not valid Unicode; a set value is taken verbatim, even when empty.
      Otherwise the stored C string is used, without everything up to and
      including its first `__`, and an empty result is an error. */
  function BytesToStr(name: string, env: Option<string>, bytes: string): (r: Result<string, string>)
    requires NUL in bytes
    ensures env.Some? ==> r == Ok(env.value)
    ensures env.None? && r.Ok? ==> |r.value| > 0 && NUL !in r.value
    ensures env.None? && r.Ok? ==> exists k :: 0 <= k <= |CString(bytes)| && CString(bytes)[k..] == r.value
    ensures env.None? && FindPrefixEnd(CString(bytes)).None? ==>
              r == (if |CString(bytes)| == 0 then Err(MissingMessage(name)) else Ok(CString(bytes)))
    ensures env.None? && FindPrefixEnd(CString(bytes)).Some? ==>
              var rest := CString(bytes)[FindPrefixEnd(CString(bytes)).value + 2..];
              r == (if |rest| == 0 then Err(MissingMessage(name)) else Ok(rest))
    ensures r.Err? ==> r.error == MissingMessage(name)
  {
    match env
    case Some(value) => Ok(value)
    case None =>
      var text := CString(bytes);
      var start := match FindPrefixEnd(text)
        case Some(i) => i + 2
        case None => 0;
      var fallback := text[start..];
      if |fallback| == 0 then Err(MissingMessage(name)) else Ok(fallback)
  }

  /** The stored value is what follows the first `__` of the C string: the
      variable's message when nothing follows it, the rest otherwise. */
  lemma CutAfterFirstSeparator(name: string, bytes: string, k: nat)
    requires NUL in bytes
    requires k + 2 <= |CString(bytes)| && CString(bytes)[k] == '_' && CString(bytes)[k + 1] == '_'
    requires forall j :: 0 <= j < k ==> !(CString(bytes)[j] == '_' && CString(bytes)[j + 1] == '_')
    ensures var rest := CString(bytes)[k + 2..];
            BytesToStr(name, None, bytes) == if |rest| == 0 then Err(MissingMessage(name)) else Ok(rest)
  {
    assert FindPrefixEnd(CString(bytes)) == Some(k);
  }

  /** A default stored as `name__value` followed by NUL padding comes out as
      `value`, whatever the value's own underscores. */
  lemma StoredDefault(name: string, value: string, padding: nat)
    requires '_' !in name && NUL !in name
    requires NUL !in value && |value| > 0 && padding > 0
    ensures var bytes := name + "__" + value + Padding(padding);
            NUL in bytes && BytesToStr(name, None, bytes) == Ok(value)
  {
    var bytes := name + "__" + value + Padding(padding);
    var text := name + "__" + value;
    assert bytes[|text|] == NUL;
    assert bytes[..|text|] == text;
    assert NUL !in text by {
      forall j | 0 <= j < |text| ensures text[j] != NUL {
        if j >= |name| + 2 {
          assert text[j] == value[j - |name| - 2];
        } else if j < |name| {
          assert text[j] == name[j];
        }
      }
    }
    var k := IndexOf(bytes, NUL);
    assert k == |text|;
    assert CString(bytes) == text;
    var found := FindPrefixEnd(text);
    assert found == Some(|name|) by {
      assert text[|name|] == '_' && text[|name| + 1] == '_';
      assert forall j :: 0 <= j < |name| ==> text[j] == name[j];
    }
    assert text[|name| + 2..] == value;
  }

  /** The stored signalling default names the public signalling server. */
  lemma SignalDefault()
    ensures BytesToStr("SIGNAL", None, SIGNAL_DEFAULT) == Ok("wss://icepipe.fly.dev/signaling/")
  {
    StoredDefault("SIGNAL", "wss://icepipe.fly.dev/signaling/", 65);
  }

  /** The stored STUN default names Google's STUN server. */
  lemma StunDefault()
    ensures BytesToStr("STUN", None, STUN_DEFAULT) == Ok("stun:stun.l.google.com:19302")
  {
    StoredDefault("STUN", "stun:stun.l.google.com:19302", 183);
  }

  /** A STUN or TURN server: the parsed address, and the credentials. */
  datatype IceUrl<U> = IceUrl(location: U, username: string, password: string)

  /** The `i`-th piece, or the empty string when there are fewer pieces. */
  function FieldOrEmpty(fields: seq<string>, i: nat): string {
    if i < |fields| then fields[i] else ""
  }

  /** One `url&username&password` entry. The first piece always exists, so
      an entry is never rejected as empty; missing credentials are empty and
      pieces after the third are ignored. Address parsing is `parse`. */
  function ParseEntry<U>(entry: string, parse: string -> Result<U, string>): (r: Result<IceUrl<U>, string>)
    ensures r.Ok? <==> parse(Split(entry, '&')[0]).Ok?
    ensures r.Err? ==> r.error == parse(Split(entry, '&')[0]).error
    ensures r.Ok? ==> r.value == IceUrl(parse(Split(entry, '&')[0]).value,
                                        FieldOrEmpty(Split(entry, '&'), 1), FieldOrEmpty(Split(entry, '&'), 2))
  {
    var fields := Split(entry, '&');
    match parse(fields[0])
    case Err(e) => Err(e)
    case Ok(location) => Ok(IceUrl(location, FieldOrEmpty(fields, 1), FieldOrEmpty(fields, 2)))
  }

  /** An entry written from its three fields gives them back; an entry with
      no `&` has empty credentials. */
  lemma EntryFields<U>(url: string, username: string, password: string, parse: string -> Result<U, string>)
    requires '&' !in url && '&' !in username && '&' !in password
    requires parse(url).Ok?
    ensures ParseEntry(url + "&" + username + "&" + password, parse) == Ok(IceUrl(parse(url).value, username, password))
    ensures ParseEntry(url, parse) == Ok(IceUrl(parse(url).value, "", ""))
  {
    var parts := [url, username, password];
    assert Join(parts, '&') == url + "&" + username + "&" + password by {
      assert Join(parts[1..], '&') == username + "&" + password by {
        assert parts[1..][1..] == [password];
      }
    }
    SplitJoin(parts, '&');
    SplitJoin([url], '&');
  }

  /** A list of one entry with no `&` is one server without credentials. */
  lemma SingleEntry<U>(url: string, parse: string -> Result<U, string>)
    requires '&' !in url && parse(url).Ok?
    ensures ParseAll([url], parse) == Ok([IceUrl(parse(url).value, "", "")])
  {
    SplitJoin([url], '&');
    assert ParseEntry(url, parse) == Ok(IceUrl(parse(url).value, "", ""));
    var r := ParseAll([url], parse);
    assert r.Ok?;
    assert |r.value| == 1 && r.value[0] == IceUrl(parse(url).value, "", "");
    assert r.value == [IceUrl(parse(url).value, "", "")];
  }

  /** Every entry parsed in order; the first failing entry fails the list. */
  function ParseAll<U>(entries: seq<string>, parse: string -> Result<U, string>): (r: Result<seq<IceUrl<U>>, string>)
    ensures r.Ok? ==> |r.value| == |entries|
    ensures r.Ok? <==> forall i :: 0 <= i < |entries| ==> ParseEntry(entries[i], parse).Ok?
    ensures r.Ok? ==> forall i :: 0 <= i < |entries| ==> r.value[i] == ParseEntry(entries[i], parse).value
    ensures r.Err? ==> exists i :: 0 <= i < |entries| && ParseEntry(entries[i], parse) == Err(r.error)
                                   && forall j :: 0 <= j < i ==> ParseEntry(entries[j], parse).Ok?
    decreases |entries|
  {
    if |entries| == 0 then Ok([])
    else
      match ParseEntry(entries[0], parse)
      case Err(e) => Err(e)
      case Ok(first) =>
        match ParseAll(entries[1..], parse)
        case Err(e) =>
          FailureShifts(entries, parse, e);
          Err(e)
        case Ok(rest) =>
          assert forall i :: 0 < i < |entries| ==> entries[1..][i - 1] == entries[i];
          Ok([first] + rest)
  }

  lemma FailureShifts<U>(entries: seq<string>, parse: string -> Result<U, string>, e: string)
    requires |entries| > 0 && ParseEntry(entries[0], parse).Ok?
    requires exists i :: 0 <= i < |entries[1..]| && ParseEntry(entries[1..][i], parse) == Err(e)
                         && forall j :: 0 <= j < i ==> ParseEntry(entries[1..][j], parse).Ok?
    ensures exists i :: 0 <= i < |entries| && ParseEntry(entries[i], parse) == Err(e)
                        && forall j :: 0 <= j < i ==> ParseEntry(entries[j], parse).Ok?
  {
    var i :| 0 <= i < |entries[1..]| && ParseEntry(entries[1..][i], parse) == Err(e)
             && forall j :: 0 <= j < i ==> ParseEntry(entries[1..][j], parse).Ok?;
    assert ParseEntry(entries[i + 1], parse) == Err(e);
    forall j | 0 <= j < i + 1 ensures ParseEntry(entries[j], parse).Ok? {
      if j > 0 {
        assert entries[j] == entries[1..][j - 1];
      }
    }
  }

  /** `ice_urls`: the variable or the stored default, split into entries. */
  function IceUrls<U>(env: Option<string>, parse: string -> Result<U, string>): (r: Result<seq<IceUrl<U>>, string>)
    ensures BytesToStr("STUN", env, STUN_DEFAULT).Err? ==> r == Err(BytesToStr("STUN", env, STUN_DEFAULT).error)
    ensures BytesToStr("STUN", env, STUN_DEFAULT).Ok? ==> r == ParseAll(Split(BytesToStr("STUN", env, STUN_DEFAULT).value, ';'), parse)
    ensures r.Ok? ==> |r.value| >= 1
  {
    match BytesToStr("STUN", env, STUN_DEFAULT)
    case Err(e) => Err(e)
    case Ok(text) => ParseAll(Split(text, ';'), parse)
  }
}
