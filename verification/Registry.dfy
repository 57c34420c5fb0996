/** The registered scopes, what each constraint key's value may be, and validation against
    the registry (agent-core/src/scope.ts, registry and content-bound parts). */
module Registry {
  import opened Text
  import opened Scope

  datatype Registration = Registration(keys: set<string>, prefixKeys: set<string>, contentKeys: seq<string>)

  function Registered(product: string, verb: string): Option<Registration> {
    var name := product + ":" + verb;
    if name == "lock:seal" then Some(Registration({"recipient", "mime", "max_bytes"}, {}, []))
    else if name == "lock:chat" then Some(Registration({"recipient", "max_bytes_per_msg", "max_msgs"}, {}, []))
    else if name == "stamp:sign" then
      Some(Registration({"mime", "max_bytes", "content_hash_prefix"}, {"content_hash_prefix"},
                        ["mime", "max_bytes", "content_hash_prefix"]))
    else if name == "vote:cast" then Some(Registration({"poll_id", "choice"}, {}, []))
    else if name == "nostr:publish" then Some(Registration({"kind", "relay", "max_bytes"}, {}, []))
    else if name == "http:request" then
      Some(Registration({"origin", "method", "max_rps", "max_bytes_out"}, {}, []))
    else if name == "ln:send" then Some(Registration({"max_sats", "node", "max_fee_sats"}, {}, []))
    else if name == "mcp:invoke" then Some(Registration({"server", "tool", "max_invocations"}, {}, []))
    else if name == "pledge:create" then
      Some(Registration({"max_bond_sats", "mechanism", "counterparty"}, {}, []))
    else if name == "anthropic:tool" || name == "openai:function" then Some(Registration({"name"}, {}, []))
    else if name == "vercel:tool" || name == "langgraph:tool" then Some(Registration({"verb"}, {}, []))
    else None
  }

  predicate IsPrefixKey(product: string, verb: string, key: string) {
    var reg := Registered(product, verb);
    reg.Some? && key in reg.value.prefixKeys
  }

  predicate IsNumericKey(key: string) {
    key in {"max_bytes", "max_bytes_per_msg", "max_msgs", "max_bytes_out", "max_rps", "max_sats",
            "max_fee_sats", "max_invocations", "max_bond_sats", "kind"}
  }

  /** A prefix is text, never a number. */
  lemma PrefixKeysAreNotNumeric(product: string, verb: string, key: string)
    requires IsPrefixKey(product, verb, key)
    ensures !IsNumericKey(key)
  {
    assert key == "content_hash_prefix";
    assert key[0] == 'c' && |key| == 19;
  }

  // ----- values -----

  const MAX_SAFE := 9007199254740991

  /** A decimal integer that a JavaScript number holds exactly. */
  function DecimalInteger(value: string): Option<int> {
    if IsInteger(value) && -MAX_SAFE <= IntegerValue(value) <= MAX_SAFE then Some(IntegerValue(value)) else None
  }

  predicate IsMethodText(s: string) {
    s != "" && forall i | 0 <= i < |s| :: IsUpper(s[i]) || IsDigit(s[i]) || s[i] in "!#$%&'*+-.^_`|~"
  }

  predicate IsMimePart(s: string) {
    && 0 < |s| <= 127
    && ('a' <= s[0] <= 'z' || IsDigit(s[0]))
    && forall i | 0 <= i < |s| :: 'a' <= s[i] <= 'z' || IsDigit(s[i]) || s[i] in "!#$&^_.+-"
  }

  predicate IsMimeText(s: string) {
    var slash := IndexOf(s, "/");
    slash >= 0 && IsMimePart(s[..slash]) && IsMimePart(s[slash + 1..])
  }

  predicate HasUpper(s: string) { exists i | 0 <= i < |s| :: IsUpper(s[i]) }

  function AsciiLower(c: char): char {
    if IsUpper(c) then (c as int + 32) as char else c
  }

  /** `text` starts with `lower`, upper- and lower-case letters alike. */
  predicate StartsWithAnyCase(text: string, lower: string) {
    |lower| <= |text| && forall i | 0 <= i < |lower| :: AsciiLower(text[i]) == lower[i]
  }

  predicate IsBech32(s: string) {
    StartsWithAnyCase(s, "bc1") || StartsWithAnyCase(s, "tb1") || StartsWithAnyCase(s, "bcrt1")
  }

  /** The scheme and authority of a URL, or everything before the path, query or fragment. */
  function UrlHead(s: string): string {
    var scheme := FirstOf(s, ":/?#", 0);
    if "://" <= s[scheme..] then s[..FirstOf(s, "/?#", scheme + 3)]
    else s[..FirstOf(s, "/?#", 0)]
  }

  /** `value` is one `key` can take. */
  predicate ValueFits(key: string, value: string) {
    && (IsNumericKey(key) ==> DecimalInteger(value).Some?)
    && (key == "method" ==> IsMethodText(value))
    && (key in {"content_hash_prefix", "poll_id", "node"} ==> value != "" && AllHex(value))
    && (key == "mime" ==> IsMimeText(value))
    && (key in {"recipient", "counterparty"} ==> !(IsBech32(value) && HasUpper(value)))
    && (key in {"origin", "server", "relay"} ==> '\\' !in value && !HasUpper(UrlHead(value)))
  }

  // ----- validation -----

  datatype Strictness = Strict | Permissive

  predicate ConstraintValid(reg: Registration, mode: Strictness, c: Constraint) {
    && !(c.key in reg.prefixKeys && c.op == Ne)
    && if c.key in reg.keys then c.value.Some? ==> ValueFits(c.key, c.value.value) else mode == Permissive
  }

  predicate Valid(s: Scope, mode: Strictness) {
    match Registered(s.product, s.verb)
    case None => mode == Permissive
    case Some(reg) => forall i | 0 <= i < |s.constraints| :: ConstraintValid(reg, mode, s.constraints[i])
  }

  /** The loop over the constraints; the first bad one refuses the scope. */
  method ValidateScope(s: Scope, mode: Strictness) returns (valid: bool)
    ensures valid == Valid(s, mode)
  {
    var found := Registered(s.product, s.verb);
    if found.None? {
      return mode == Permissive;
    }
    var reg := found.value;
    for i := 0 to |s.constraints|
      invariant forall j | 0 <= j < i :: ConstraintValid(reg, mode, s.constraints[j])
    {
      var c := s.constraints[i];
      if IsPrefixKey(s.product, s.verb, c.key) && c.op == Ne {
        return false;
      }
      if c.key !in reg.keys {
        if mode == Strict {
          return false;
        }
      } else if c.value.Some? && !ValueFits(c.key, c.value.value) {
        return false;
      }
    }
    return true;
  }

  // ----- content-bound keys -----

  datatype Content = Content(hash: string, length: int, mime: string)

  predicate HexOfEitherCase(hex: string) { forall i | 0 <= i < |hex| :: IsLowerHex(AsciiLower(hex[i])) }

  /** The hex digits of a well-formed `sha256:` hash, in lower case; any other hash as written. */
  function HashHex(hash: string, lower: string -> string): string {
    var hex := if "sha256:" <= hash then hash[7..] else "";
    if |hex| == 64 && HexOfEitherCase(hex) then lower(hex) else hash
  }

  /** What the signed content itself says of a content-bound key. */
  function Derived(key: string, content: Content, lower: string -> string): Option<string> {
    if key == "mime" then Some(lower(Trim(content.mime[..FirstOf(content.mime, ";", 0)])))
    else if key == "max_bytes" then Some(IntegerText(content.length))
    else if key == "content_hash_prefix" then Some(HashHex(content.hash, lower))
    else None
  }

  function ContentKeys(s: Scope): seq<string> {
    match Registered(s.product, s.verb) case None => [] case Some(reg) => reg.contentKeys
  }

  function WithoutKeys(cs: seq<Constraint>, keys: seq<string>): seq<Constraint> {
    if cs == [] then []
    else (if cs[0].key in keys then [] else [cs[0]]) + WithoutKeys(cs[1..], keys)
  }

  /** What the content says of each key, as constraints. */
  function BoundList(keys: seq<string>, content: Content, lower: string -> string): (bound: seq<Constraint>)
    ensures |bound| == |keys|
    ensures forall i | 0 <= i < |keys| :: bound[i] == Constraint(keys[i], Eq, Derived(keys[i], content, lower), true)
  {
    seq(|keys|, i requires 0 <= i < |keys| => Constraint(keys[i], Eq, Derived(keys[i], content, lower), true))
  }

  /** `exercised` with each content-bound key set from the content instead of the claim. */
  function ContentBound(exercised: Scope, content: Content, lower: string -> string): Scope {
    var keys := ContentKeys(exercised);
    if keys == [] then exercised
    else
      exercised.(constraints := WithoutKeys(exercised.constraints, keys) + BoundList(keys, content, lower))
  }

  // ----- what fitting means -----

  /** A text written from an integer counts as a number exactly when a JavaScript number holds it. */
  lemma WrittenIntegersFit(n: int)
    ensures DecimalInteger(IntegerText(n)) == if -9007199254740991 <= n <= 9007199254740991 then Some(n) else None
  {
  }

  predicate SameIgnoringCase(v: string, w: string) {
    |v| == |w| && forall i | 0 <= i < |v| :: AsciiLower(v[i]) == AsciiLower(w[i])
  }

  lemma NoUpperIsOne(v: string, w: string)
    requires SameIgnoringCase(v, w) && !HasUpper(v) && !HasUpper(w)
    ensures v == w
  {
  }

  lemma MimeHasNoUpper(v: string)
    requires IsMimeText(v)
    ensures !HasUpper(v)
  {
    var slash := IndexOf(v, "/");
    assert v[slash..][0] == '/';
    forall i | 0 <= i < |v| ensures !IsUpper(v[i]) {
      if i < slash {
        assert v[i] == v[..slash][i];
      } else if i > slash {
        assert v[i] == v[slash + 1..][i - slash - 1];
      }
    }
  }

  lemma MethodIsOne(v: string, w: string)
    requires IsMethodText(v) && IsMethodText(w) && SameIgnoringCase(v, w)
    ensures v == w
  {
    forall i | 0 <= i < |v| ensures v[i] == w[i] {
      assert AsciiLower(v[i]) == AsciiLower(w[i]);
    }
  }

  lemma FittingHasNoUpper(key: string, v: string)
    requires ValueFits(key, v)
    requires || key in {"content_hash_prefix", "poll_id", "node", "mime"}
             || (key in {"recipient", "counterparty"} && IsBech32(v))
    ensures !HasUpper(v)
  {
    if key == "mime" { MimeHasNoUpper(v); }
  }

  /** Comparing fitting values as text misses no difference of case alone: a method, a hex text, a media
      type or a bech32 address has one fitting spelling. */
  lemma FittingTextIsOne(key: string, v: string, w: string)
    requires ValueFits(key, v) && ValueFits(key, w) && SameIgnoringCase(v, w)
    requires || key in {"method", "content_hash_prefix", "poll_id", "node", "mime"}
             || (key in {"recipient", "counterparty"} && IsBech32(v) && IsBech32(w))
    ensures v == w
  {
    if key == "method" {
      MethodIsOne(v, w);
    } else {
      FittingHasNoUpper(key, v);
      FittingHasNoUpper(key, w);
      NoUpperIsOne(v, w);
    }
  }

  /** The signs a method and a media type may hold besides letters and digits. */
  ghost predicate MimeSign(c: char) {
    || c == '!' || c == '#' || c == '$' || c == '&' || c == '^' || c == '_' || c == '.' || c == '+' || c == '-'
  }

  ghost predicate MethodSign(c: char) {
    MimeSign(c) || c == '%' || c == '\'' || c == '*' || c == '`' || c == '|' || c == '~'
  }

  lemma FittingMethod(v: string)
    ensures ValueFits("method", v)
       <==> v != "" && forall i | 0 <= i < |v| :: 'A' <= v[i] <= 'Z' || '0' <= v[i] <= '9' || MethodSign(v[i])
  {
  }

  lemma FittingHex(key: string, v: string)
    requires key in {"content_hash_prefix", "poll_id", "node"}
    ensures ValueFits(key, v) <==> v != "" && forall i | 0 <= i < |v| :: '0' <= v[i] <= '9' || 'a' <= v[i] <= 'f'
  {
  }

  ghost predicate LowerOrDigit(c: char) { 'a' <= c <= 'z' || '0' <= c <= '9' }

  /** At most 127 characters, the first a lower-case letter or a digit. */
  ghost predicate MimeName(s: string) {
    0 < |s| < 128 && LowerOrDigit(s[0]) && forall i | 0 <= i < |s| :: LowerOrDigit(s[i]) || MimeSign(s[i])
  }

  lemma MimePartIsName(s: string)
    ensures IsMimePart(s) <==> MimeName(s)
  {
  }

  lemma NameHasNoSlash(kind: string, name: string)
    requires MimeName(kind)
    ensures IndexOf(kind + "/" + name, "/") == |kind|
  {
    assert forall i | 0 <= i < |kind| :: kind[i] != '/';
    FirstPattern(kind, "/", name);
  }

  /** A media type fits exactly when it is two names with a slash between. */
  lemma FittingMime(v: string)
    ensures ValueFits("mime", v) <==> exists kind, name :: MimeName(kind) && MimeName(name) && v == kind + "/" + name
  {
    if ValueFits("mime", v) {
      var slash := IndexOf(v, "/");
      assert v[slash..][0] == '/';
      MimePartIsName(v[..slash]);
      MimePartIsName(v[slash + 1..]);
      assert v == v[..slash] + "/" + v[slash + 1..];
    }
    if kind, name :| MimeName(kind) && MimeName(name) && v == kind + "/" + name {
      NameHasNoSlash(kind, name);
      MimePartIsName(kind);
      MimePartIsName(name);
      assert v[..|kind|] == kind && v[|kind| + 1..] == name;
    }
  }

  /** `v` begins with `lower` but for case. */
  ghost predicate BeginsInAnyCase(v: string, lower: string) {
    |lower| <= |v|
    && forall i | 0 <= i < |lower| ::
         v[i] == lower[i] || ('A' <= v[i] <= 'Z' && lower[i] as int - v[i] as int == 'a' as int - 'A' as int)
  }

  lemma PrefixInAnyCase(v: string, lower: string)
    requires forall i | 0 <= i < |lower| :: !('A' <= lower[i] <= 'Z')
    ensures BeginsInAnyCase(v, lower) <==> StartsWithAnyCase(v, lower)
  {
  }

  /** A bech32 address, in whatever case it begins, fits exactly when it has no upper-case letter; any other
      address fits as it is. */
  lemma FittingAddress(key: string, v: string)
    requires key in {"recipient", "counterparty"}
    ensures ValueFits(key, v)
       <==> (BeginsInAnyCase(v, "bc1") || BeginsInAnyCase(v, "tb1") || BeginsInAnyCase(v, "bcrt1") ==>
             forall i | 0 <= i < |v| :: !('A' <= v[i] <= 'Z'))
  {
    PrefixInAnyCase(v, "bc1");
    PrefixInAnyCase(v, "tb1");
    PrefixInAnyCase(v, "bcrt1");
  }

  /** Free text fits in the other keys. */
  lemma FittingText(key: string, v: string)
    requires key in {"choice", "tool", "mechanism", "name", "verb"}
    ensures ValueFits(key, v)
  {
  }

  /** No path, query or fragment has begun between `from` and `i`. */
  ghost predicate Unbroken(v: string, from: nat, i: nat)
    requires i < |v|
  {
    forall k | from <= k <= i :: v[k] !in "/?#"
  }

  /** `v[i]` is in the scheme or the authority, `v[p]` being the colon between them. */
  ghost predicate AfterScheme(v: string, p: nat, i: nat)
    requires i < |v|
  {
    p + 3 <= i && v[p..p + 3] == "://" && (forall k | 0 <= k < p :: v[k] !in ":/?#") && Unbroken(v, p + 3, i)
  }

  ghost predicate BeforePath(v: string, i: nat)
    requires i < |v|
  {
    Unbroken(v, 0, i) || exists p: nat :: AfterScheme(v, p, i)
  }

  lemma SchemeIsFirst(v: string, p: nat, i: nat)
    requires i < |v| && AfterScheme(v, p, i)
    ensures p == FirstOf(v, ":/?#", 0) && "://" <= v[p..]
  {
    assert v[p..p + 3][0] == ':' && v[p..][..3] == v[p..p + 3];
  }

  lemma HeadReaches(v: string, i: nat)
    requires i < |v| && v[i] !in ":/?#"
    ensures UrlHead(v) <= v && (i < |UrlHead(v)| <==> BeforePath(v, i))
  {
    var scheme := FirstOf(v, ":/?#", 0);
    forall p: nat | AfterScheme(v, p, i) ensures p == scheme && "://" <= v[p..] {
      SchemeIsFirst(v, p, i);
    }
    if "://" <= v[scheme..] {
      assert v[scheme..scheme + 3] == "://" && v[scheme + 1] == '/';
      assert i < |UrlHead(v)| && scheme + 3 <= i ==> AfterScheme(v, scheme, i);
    }
  }

  lemma HeadIsAPrefix(v: string)
    ensures UrlHead(v) <= v
  {
  }

  /** A URL fits exactly when it has no backslash, and no upper-case letter in its scheme or host: before
      its path, query or fragment. */
  lemma FittingUrl(key: string, v: string)
    requires key in {"origin", "server", "relay"}
    ensures ValueFits(key, v) <==> '\\' !in v && forall i | 0 <= i < |v| && 'A' <= v[i] <= 'Z' :: !BeforePath(v, i)
  {
    HeadIsAPrefix(v);
    var head := UrlHead(v);
    forall i | 0 <= i < |v| && IsUpper(v[i]) ensures i < |head| <==> BeforePath(v, i) {
      HeadReaches(v, i);
    }
    assert forall i | 0 <= i < |head| :: head[i] == v[i];
    if HasUpper(head) {
      var i :| 0 <= i < |head| && IsUpper(head[i]);
      assert IsUpper(v[i]) && BeforePath(v, i);
    }
  }

  /** The scopes that take each constraint key: the table of scopes, read by key. */
  ghost function TakenBy(key: string): set<string> {
    if key == "max_bytes" then {"lock:seal", "stamp:sign", "nostr:publish"}
    else if key == "mime" then {"lock:seal", "stamp:sign"}
    else if key == "recipient" then {"lock:seal", "lock:chat"}
    else if key in {"max_bytes_per_msg", "max_msgs"} then {"lock:chat"}
    else if key == "content_hash_prefix" then {"stamp:sign"}
    else if key in {"poll_id", "choice"} then {"vote:cast"}
    else if key in {"kind", "relay"} then {"nostr:publish"}
    else if key in {"origin", "method", "max_rps", "max_bytes_out"} then {"http:request"}
    else if key in {"max_sats", "node", "max_fee_sats"} then {"ln:send"}
    else if key in {"server", "tool", "max_invocations"} then {"mcp:invoke"}
    else if key in {"max_bond_sats", "mechanism", "counterparty"} then {"pledge:create"}
    else if key == "name" then {"anthropic:tool", "openai:function"}
    else if key == "verb" then {"vercel:tool", "langgraph:tool"}
    else {}
  }

  lemma MessageKeys(product: string, verb: string, key: string)
    requires product + ":" + verb in {"lock:seal", "lock:chat", "stamp:sign", "vote:cast", "nostr:publish"}
    ensures product + ":" + verb in TakenBy(key) <==> key in Registered(product, verb).value.keys
  {
  }

  lemma CallKeys(product: string, verb: string, key: string)
    requires product + ":" + verb in {"http:request", "ln:send", "mcp:invoke", "pledge:create"}
    ensures product + ":" + verb in TakenBy(key) <==> key in Registered(product, verb).value.keys
  {
  }

  lemma AdapterKeys(product: string, verb: string, key: string)
    requires product + ":" + verb in {"anthropic:tool", "openai:function", "vercel:tool", "langgraph:tool"}
    ensures product + ":" + verb in TakenBy(key) <==> key in Registered(product, verb).value.keys
  {
  }

  lemma UnregisteredTakesNone(product: string, verb: string, key: string)
    requires Registered(product, verb).None?
    ensures product + ":" + verb !in TakenBy(key)
  {
  }

  /** Every registered key belongs to the scopes that take it, and to no other. Only a stamp names a
      prefix, and only a stamp's keys are read off the content. */
  lemma KeysByScope(product: string, verb: string, key: string)
    ensures var name, reg := product + ":" + verb, Registered(product, verb);
            && (name in TakenBy(key) <==> reg.Some? && key in reg.value.keys)
            && (IsPrefixKey(product, verb, key) <==> name == "stamp:sign" && key == "content_hash_prefix")
            && (reg.Some? && reg.value.contentKeys != [] <==> name == "stamp:sign")
            && (name == "stamp:sign" ==> reg.value.contentKeys == ["mime", "max_bytes", "content_hash_prefix"])
  {
    var name := product + ":" + verb;
    if Registered(product, verb).None? {
      UnregisteredTakesNone(product, verb, key);
    } else if name in {"lock:seal", "lock:chat", "stamp:sign", "vote:cast", "nostr:publish"} {
      MessageKeys(product, verb, key);
    } else if name in {"http:request", "ln:send", "mcp:invoke", "pledge:create"} {
      CallKeys(product, verb, key);
    } else {
      AdapterKeys(product, verb, key);
    }
  }

  /** In strict mode a constraint stands only in a scope that takes its key. */
  lemma StrictKeysAreTaken(s: Scope, i: nat)
    requires Valid(s, Strict) && i < |s.constraints|
    ensures s.product + ":" + s.verb in TakenBy(s.constraints[i].key)
  {
    KeysByScope(s.product, s.verb, s.constraints[i].key);
    assert ConstraintValid(Registered(s.product, s.verb).value, Strict, s.constraints[i]);
  }

  lemma LimitIsNumeric(key: string)
    requires key in {"max_bytes", "max_bytes_per_msg", "max_msgs", "max_bytes_out", "max_rps", "max_sats",
                     "max_fee_sats", "max_invocations", "max_bond_sats", "kind"}
    ensures IsNumericKey(key)
  {
  }

  lemma OtherKeysAreNoLimits(key: string)
    requires key in {"recipient", "mime", "content_hash_prefix", "poll_id", "choice", "relay", "origin", "method",
                     "node", "server", "tool", "mechanism", "counterparty", "name", "verb"}
    ensures !("max_" <= key) && key != "kind"
  {
    assert key[0] != "max_"[0] || key[1] != "max_"[1];
  }

  lemma RegisteredKeys(product: string, verb: string, key: string)
    requires Registered(product, verb).Some? && key in Registered(product, verb).value.keys
    ensures || key in {"max_bytes", "max_bytes_per_msg", "max_msgs", "max_bytes_out", "max_rps", "max_sats",
                       "max_fee_sats", "max_invocations", "max_bond_sats", "kind"}
            || key in {"recipient", "mime", "content_hash_prefix", "poll_id", "choice", "relay", "origin", "method",
                       "node", "server", "tool", "mechanism", "counterparty", "name", "verb"}
  {
  }

  /** Every registered limit is compared as a number, so that it can be ordered: a key of any registered
      scope that begins with `max_`, and `kind`. */
  lemma RegisteredLimitsAreNumeric(product: string, verb: string, key: string)
    requires Registered(product, verb).Some? && key in Registered(product, verb).value.keys
    requires "max_" <= key || key == "kind"
    ensures IsNumericKey(key)
  {
    RegisteredKeys(product, verb, key);
    if key in {"max_bytes", "max_bytes_per_msg", "max_msgs", "max_bytes_out", "max_rps", "max_sats",
               "max_fee_sats", "max_invocations", "max_bond_sats", "kind"} {
      LimitIsNumeric(key);
    } else {
      OtherKeysAreNoLimits(key);
    }
  }
}
