/** The names under which users write channels, and the one under which they are stored:
    `username` of `codegen_kit_tg_channels/service.py`. */
module ChannelNames {
  import opened Options
  import opened Stripping

  /** What may stand before a name; the first one that does is taken off. */
  const Prefixes := ["https://t.me/", "http://t.me/", "t.me/", "@"]

  predicate IsLetter(c: char) {
    'A' <= c <= 'Z' || 'a' <= c <= 'z'
  }

  predicate IsNameChar(c: char) {
    IsLetter(c) || '0' <= c <= '9' || c == '_'
  }

  /** A letter, and three to thirty-one letters, digits or underscores. */
  predicate IsUsername(s: string) {
    4 <= |s| <= 32 && IsLetter(s[0]) && forall i :: 0 <= i < |s| ==> IsNameChar(s[i])
  }

  function LowerChar(c: char): char {
    if 'A' <= c <= 'Z' then ((c as int) + 32) as char else c
  }

  function Lower(s: string): string {
    seq(|s|, i requires 0 <= i < |s| => LowerChar(s[i]))
  }

  function WithoutPrefix(s: string, prefixes: seq<string>): string {
    if prefixes == [] then s
    else if prefixes[0] <= s then s[|prefixes[0]|..]
    else WithoutPrefix(s, prefixes[1..])
  }

  /** `username`; none is the refusal. */
  function Username(text: string): Option<string> {
    var value := WithoutPrefix(Strip(text), Prefixes);
    if IsUsername(value) then Some(Lower(value)) else None
  }

  /** Blanks around a prefix or none and the name, in any case. */
  predicate WrittenWith(text: string, name: string, a: string, prefix: string, value: string, b: string) {
    && AllSpace(a) && AllSpace(b) && (prefix in Prefixes || prefix == "") && IsUsername(value)
    && text == a + (prefix + value) + b && name == Lower(value)
  }

  /** The ways to write a channel. */
  ghost predicate Writes(text: string, name: string) {
    exists a, prefix, value, b :: WrittenWith(text, name, a, prefix, value, b)
  }

  lemma PrefixesAre(prefix: string)
    ensures prefix in Prefixes <==> prefix in {"https://t.me/", "http://t.me/", "t.me/", "@"}
  {
  }

  lemma NotABeginning(prefix: string, s: string, c: nat)
    requires c < |prefix| && (c < |s| ==> s[c] != prefix[c])
    ensures !(prefix <= s)
  {
  }

  lemma WithoutNone(value: string)
    requires IsUsername(value)
    ensures WithoutPrefix(value, Prefixes) == value
  {
    forall k | 0 <= k < |Prefixes| ensures !(Prefixes[k] <= value) {
      var c := if k == 0 then 5 else if k == 1 then 4 else if k == 2 then 1 else 0;
      assert !IsNameChar(Prefixes[k][c]);
      NotABeginning(Prefixes[k], value, c);
    }
    NoPrefix(value, Prefixes);
  }

  lemma {:induction false} NoPrefix(s: string, prefixes: seq<string>)
    requires forall k :: 0 <= k < |prefixes| ==> !(prefixes[k] <= s)
    ensures WithoutPrefix(s, prefixes) == s
  {
    if prefixes != [] {
      NoPrefix(s, prefixes[1..]);
    }
  }

  /** The first prefix that fits is taken off. */
  lemma {:induction false} FirstPrefix(s: string, prefixes: seq<string>, k: nat)
    requires k < |prefixes| && prefixes[k] <= s
    requires forall j :: 0 <= j < k ==> !(prefixes[j] <= s)
    ensures WithoutPrefix(s, prefixes) == s[|prefixes[k]|..]
  {
    if k > 0 {
      FirstPrefix(s, prefixes[1..], k - 1);
    }
  }

  /** No prefix is the beginning of another one followed by a name. */
  lemma WithoutThat(k: nat, value: string)
    requires k < |Prefixes| && IsUsername(value)
    ensures WithoutPrefix(Prefixes[k] + value, Prefixes) == value
  {
    var s := Prefixes[k] + value;
    forall j | 0 <= j < k ensures !(Prefixes[j] <= s) {
      // the first position at which the two prefixes differ
      var c := if j == 0 && k == 1 then 4 else 0;
      assert s[c] == Prefixes[k][c] && Prefixes[j][c] != Prefixes[k][c];
      NotABeginning(Prefixes[j], s, c);
    }
    FirstPrefix(s, Prefixes, k);
  }

  lemma {:induction false} PrefixSplits(s: string, prefixes: seq<string>) returns (prefix: string)
    ensures (prefix in prefixes || prefix == "") && s == prefix + WithoutPrefix(s, prefixes)
  {
    if prefixes == [] {
      prefix := "";
    } else if prefixes[0] <= s {
      prefix := prefixes[0];
    } else {
      prefix := PrefixSplits(s, prefixes[1..]);
    }
  }

  lemma PrefixedIsTrimmed(prefix: string, value: string)
    requires (prefix in Prefixes || prefix == "") && IsUsername(value)
    ensures Trimmed(prefix + value)
  {
    PrefixesAre(prefix);
    var s := prefix + value;
    assert s[|s| - 1] == value[|value| - 1];
    assert s[0] == if prefix == "" then value[0] else prefix[0];
  }

  /** A text is read as a channel exactly when it writes it, and so as at most one. */
  lemma UsernameIsExact(text: string, name: string)
    ensures Username(text) == Some(name) <==> Writes(text, name)
  {
    if Username(text) == Some(name) {
      var a, b := StripSplits(text);
      var prefix := PrefixSplits(Strip(text), Prefixes);
      assert WrittenWith(text, name, a, prefix, WithoutPrefix(Strip(text), Prefixes), b);
    }
    if Writes(text, name) {
      var a, prefix, value, b :| WrittenWith(text, name, a, prefix, value, b);
      PrefixedIsTrimmed(prefix, value);
      StripOf(a, prefix + value, b);
      if prefix == "" {
        assert prefix + value == value;
        WithoutNone(value);
      } else {
        var k :| 0 <= k < |Prefixes| && Prefixes[k] == prefix;
        WithoutThat(k, value);
      }
    }
  }

  /** The stored name is a way to write the channel itself. */
  lemma UsernameIsCanonical(text: string)
    requires Username(text).Some?
    ensures Username(Username(text).value) == Username(text)
  {
    var value := WithoutPrefix(Strip(text), Prefixes);
    var name := Lower(value);
    assert forall i :: 0 <= i < |name| ==> LowerChar(name[i]) == name[i];
    assert Lower(name) == name;
    assert WrittenWith(name, name, "", "", name, "");
    UsernameIsExact(name, name);
  }

  /** `username` as the code runs it. */
  method ReadUsername(text: string) returns (name: Option<string>)
    ensures name == Username(text)
  {
    var value := Strip(text);
    var i := 0;
    while i < |Prefixes|
      invariant i <= |Prefixes| && WithoutPrefix(value, Prefixes[i..]) == WithoutPrefix(Strip(text), Prefixes)
    {
      assert Prefixes[i..][0] == Prefixes[i] && Prefixes[i..][1..] == Prefixes[i + 1..];
      if Prefixes[i] <= value {
        value := value[|Prefixes[i]|..];
        break;
      }
      i := i + 1;
    }
    name := if IsUsername(value) then Some(Lower(value)) else None;
  }
}
