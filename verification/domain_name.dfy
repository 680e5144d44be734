/**
 * The query name the responder compares with its denylist: the text form of
 * the first question's name with its final root-label dot removed.
 */
module DomainName {
  import opened Wrappers

  /** The name with one trailing '.' removed, and unchanged when it has none. */
  function StripTrailingDot(name: string): (stripped: string)
    ensures |name| > 0 && name[|name| - 1] == '.' ==> stripped + "." == name
    ensures !(|name| > 0 && name[|name| - 1] == '.') ==> stripped == name
  {
    if |name| > 0 && name[|name| - 1] == '.' then name[..|name| - 1] else name
  }

  /** At most one dot goes: a name ending in two dots keeps the first. */
  lemma StripRemovesOneDot(name: string)
    requires |name| >= 2 && name[|name| - 1] == '.' && name[|name| - 2] == '.'
    ensures |StripTrailingDot(name)| == |name| - 1
    ensures StripTrailingDot(name)[|name| - 2] == '.'
  {
  }

  // ---------------------------------------------------------------------------
  // The name as the responder strips it: a character count used as a byte index

  /** Number of bytes of `c` in UTF-8. */
  function Utf8Width(c: char): nat
  {
    if c as int < 0x80 then 1 else if c as int < 0x800 then 2 else if c as int < 0x1_0000 then 3 else 4
  }

  /** Number of bytes of `s` in UTF-8, as Rust's `str::len`. */
  function ByteLength(s: string): nat
  {
    if |s| == 0 then 0 else Utf8Width(s[0]) + ByteLength(s[1..])
  }

  predicate IsAscii(s: string)
  {
    forall k :: 0 <= k < |s| ==> s[k] as int < 0x80
  }

  /**
   * Rust's `String::remove(idx)`: remove the character starting at byte `idx`;
   * `None` is the panic raised when `idx` is not below the byte length or not
   * on a character boundary.
   */
  function RemoveAtByte(s: string, idx: nat): (r: Option<string>)
    ensures r.Some? ==> |r.value| + 1 == |s|
    decreases |s|
  {
    if |s| == 0 then None
    else if idx == 0 then Some(s[1..])
    else if idx < Utf8Width(s[0]) then None
    else
      match RemoveAtByte(s[1..], idx - Utf8Width(s[0]))
      case None => None
      case Some(t) => Some([s[0]] + t)
  }

  /** A character of `s` starts at byte `idx`: `k` characters take exactly `idx` bytes. */
  predicate CharStart(s: string, k: int, idx: int)
  {
    0 <= k < |s| && ByteLength(s[..k]) == idx
  }

  /** The bytes of a non-empty prefix are those of its first character and then the rest. */
  lemma PrefixByteLength(s: string, k: nat)
    requires 0 < |s| && k <= |s|
    ensures k > 0 ==> ByteLength(s[..k]) == Utf8Width(s[0]) + ByteLength(s[1..][..k - 1])
    ensures k > 0 ==> ByteLength(s[..k]) >= Utf8Width(s[0]) >= 1
    ensures k == 0 ==> ByteLength(s[..k]) == 0
  {
    if k > 0 {
      assert s[..k][0] == s[0];
      assert s[..k][1..] == s[1..][..k - 1];
    }
  }

  /** Removing at the byte where the `k`-th character starts removes that character. */
  lemma {:induction false} RemoveAtCharStart(s: string, idx: nat, k: int)
    requires CharStart(s, k, idx)
    ensures RemoveAtByte(s, idx) == Some(s[..k] + s[k + 1..])
    decreases |s|
  {
    PrefixByteLength(s, k);
    if k == 0 {
      assert s[..0] + s[1..] == s[1..];
    } else {
      var w := Utf8Width(s[0]);
      assert CharStart(s[1..], k - 1, idx - w);
      RemoveAtCharStart(s[1..], idx - w, k - 1);
      assert idx >= w > 0;
      assert RemoveAtByte(s, idx) == Some([s[0]] + (s[1..][..k - 1] + s[1..][k..]));
      assert s[..k] == [s[0]] + s[1..][..k - 1];
      assert s[1..][k..] == s[k + 1..];
      assert s[..k] + s[k + 1..] == [s[0]] + (s[1..][..k - 1] + s[1..][k..]);
    }
  }

  /** Removal succeeds only at a byte where some character starts. */
  lemma {:induction false} RemovedCharStart(s: string, idx: nat) returns (k: int)
    requires RemoveAtByte(s, idx).Some?
    ensures CharStart(s, k, idx)
    decreases |s|
  {
    if idx == 0 {
      k := 0;
      PrefixByteLength(s, 0);
    } else {
      var w := Utf8Width(s[0]);
      var j := RemovedCharStart(s[1..], idx - w);
      k := j + 1;
      PrefixByteLength(s, k);
    }
  }

  /**
   * `String::remove(idx)` removes exactly the character that starts at byte
   * `idx`, and panics exactly when no character starts there (an index at or
   * past the byte length, or inside a multi-byte character).
   */
  lemma RemoveAtByteSpec(s: string, idx: nat)
    ensures RemoveAtByte(s, idx).Some? <==> exists k :: CharStart(s, k, idx)
    ensures forall k :: CharStart(s, k, idx) ==> RemoveAtByte(s, idx) == Some(s[..k] + s[k + 1..])
  {
    if RemoveAtByte(s, idx).Some? {
      var k := RemovedCharStart(s, idx);
    }
    forall k | CharStart(s, k, idx) ensures RemoveAtByte(s, idx) == Some(s[..k] + s[k + 1..]) {
      RemoveAtCharStart(s, idx, k);
    }
  }

  /** Character `k` of `name` starts at the byte index "number of characters - 1". */
  predicate StartsAtCountIndex(name: string, k: int)
  {
    CharStart(name, k, |name| - 1)
  }

  /**
   * The trailing-dot removal exactly as the responder writes it: test the last
   * character, then remove at byte index "number of characters - 1".
   * `None` is a panic.
   */
  function StripAsWritten(name: string): (r: Option<string>)
    ensures !(|name| > 0 && name[|name| - 1] == '.') ==> r == Some(name)
    ensures |name| > 0 && name[|name| - 1] == '.' ==>
      (r.Some? <==> exists k :: StartsAtCountIndex(name, k))
    ensures forall k :: StartsAtCountIndex(name, k) && name[|name| - 1] == '.' ==>
      r == Some(name[..k] + name[k + 1..])
  {
    if ByteLength(name) > 0 && name[|name| - 1] == '.' then
      var idx := |name| - 1;
      RemoveAtByteSpec(name, idx);
      assert RemoveAtByte(name, idx).Some? ==> exists k :: StartsAtCountIndex(name, k) by {
        if RemoveAtByte(name, idx).Some? {
          var k :| CharStart(name, k, idx);
          assert StartsAtCountIndex(name, k);
        }
      }
      RemoveAtByte(name, idx)
    else Some(name)
  }

  lemma {:induction false} AsciiByteLength(s: string)
    requires IsAscii(s)
    ensures ByteLength(s) == |s|
    decreases |s|
  {
    if |s| > 0 {
      AsciiByteLength(s[1..]);
    }
  }

  /** In an ASCII text every character starts at the byte with its own index. */
  lemma AsciiRemove(s: string, idx: nat)
    requires IsAscii(s) && idx < |s|
    ensures RemoveAtByte(s, idx) == Some(s[..idx] + s[idx + 1..])
  {
    assert IsAscii(s[..idx]) by {
      forall k | 0 <= k < idx ensures s[..idx][k] as int < 0x80 {
        assert s[..idx][k] == s[k];
      }
    }
    AsciiByteLength(s[..idx]);
    RemoveAtCharStart(s, idx, idx);
  }

  /** On ASCII names the responder's removal is the intended one: never a panic, same result. */
  lemma AsWrittenAgreesOnAscii(name: string)
    requires IsAscii(name)
    ensures StripAsWritten(name) == Some(StripTrailingDot(name))
  {
    AsciiByteLength(name);
    if |name| > 0 && name[|name| - 1] == '.' {
      AsciiRemove(name, |name| - 1);
      assert name[..|name| - 1] + name[|name|..] == name[..|name| - 1];
    }
  }

  /** "é." (the text form of xn--9ca.) makes the responder panic: byte 1 is inside 'é'. */
  lemma AsWrittenPanicsOnAccentedName()
    ensures StripAsWritten("\U{e9}.") == None
    ensures StripTrailingDot("\U{e9}.") == "\U{e9}"
  {
    assert Utf8Width('\U{e9}') == 2;
  }

  /** "café.com." (the text form of xn--caf-dma.com.) loses its 'm' instead of its dot. */
  lemma AsWrittenRemovesWrongCharacter()
    ensures StripAsWritten("caf\U{e9}.com.") == Some("caf\U{e9}.co.")
    ensures StripTrailingDot("caf\U{e9}.com.") == "caf\U{e9}.com"
  {
    assert Utf8Width('\U{e9}') == 2;
    assert "m."[1..] == ".";
    assert RemoveAtByte("m.", 0) == Some(".");
    assert "om."[1..] == "m.";
    assert ['o'] + "." == "o.";
    assert RemoveAtByte("om.", 1) == Some("o.");
    assert "com."[1..] == "om.";
    assert ['c'] + "o." == "co.";
    assert RemoveAtByte("com.", 2) == Some("co.");
    assert ".com."[1..] == "com.";
    assert ['.'] + "co." == ".co.";
    assert RemoveAtByte(".com.", 3) == Some(".co.");
    assert "\U{e9}.com."[1..] == ".com.";
    assert ['\U{e9}'] + ".co." == "\U{e9}.co.";
    assert RemoveAtByte("\U{e9}.com.", 5) == Some("\U{e9}.co.");
    assert "f\U{e9}.com."[1..] == "\U{e9}.com.";
    assert ['f'] + "\U{e9}.co." == "f\U{e9}.co.";
    assert RemoveAtByte("f\U{e9}.com.", 6) == Some("f\U{e9}.co.");
    assert "af\U{e9}.com."[1..] == "f\U{e9}.com.";
    assert ['a'] + "f\U{e9}.co." == "af\U{e9}.co.";
    assert RemoveAtByte("af\U{e9}.com.", 7) == Some("af\U{e9}.co.");
    assert "caf\U{e9}.com."[1..] == "af\U{e9}.com.";
    assert ['c'] + "af\U{e9}.co." == "caf\U{e9}.co.";
    assert RemoveAtByte("caf\U{e9}.com.", 8) == Some("caf\U{e9}.co.");
  }
}
