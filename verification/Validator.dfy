/** What an upload may be called and how large it may be: pkg/filesystem/validator.go. */
module Validator {
  import opened Tables

  /** The limits of a storage policy; a maximum of 0 and an empty list are no limit. */
  datatype Policy = Policy(id: Id, maxSize: nat, extensions: seq<string>)

  const RESERVED := "\\?*<\":>/|"

  predicate LegalName(name: string) {
    (forall c :: c in name ==> c !in RESERVED) && 0 < |name| < 256 && name[|name| - 1] != ' '
  }

  function Lower(c: char): char {
    if 'A' <= c <= 'Z' then c - 'A' + 'a' else c
  }

  /** The extension in lower case with its dot, or "". */
  function Extension(name: string): string {
    if name == "" || name[|name| - 1] == '/' then ""
    else if name[|name| - 1] == '.' then "."
    else
      var front := Extension(name[..|name| - 1]);
      if front == "" then "" else front + [Lower(name[|name| - 1])]
  }

  predicate LegalExtension(policy: Policy, name: string) {
    policy.extensions == [] || (Extension(name) != "" && Extension(name)[1..] in policy.extensions)
  }

  /** What HookValidateFile lets through. */
  predicate Allowed(policy: Policy, name: string, size: nat) {
    (policy.maxSize == 0 || size <= policy.maxSize) && LegalName(name) && LegalExtension(policy, name)
  }

  // ---- what that means ----

  const UPPER := "ABCDEFGHIJKLMNOPQRSTUVWXYZ"
  const LOWER := "abcdefghijklmnopqrstuvwxyz"

  lemma LowerMeans(c: char)
    ensures forall i :: 0 <= i < 26 && c == UPPER[i] ==> Lower(c) == LOWER[i]
    ensures c !in UPPER ==> Lower(c) == c
  {
    forall i | 0 <= i < 26
      ensures UPPER[i] == 'A' + i as char && LOWER[i] == 'a' + i as char
    {
      Alphabet(i);
    }
    if 'A' <= c <= 'Z' {
      assert UPPER[(c - 'A') as int] == c;
    }
  }

  lemma Alphabet(i: nat)
    requires i < 26
    ensures UPPER[i] == 'A' + i as char && LOWER[i] == 'a' + i as char
  {
  }

  /** Character by character. */
  function Lowered(s: string): (l: string)
    ensures |l| == |s| && forall i :: 0 <= i < |s| ==> l[i] == Lower(s[i])
  {
    if s == "" then "" else Lowered(s[..|s| - 1]) + [Lower(s[|s| - 1])]
  }

  /** A text that can stand after the last dot of a name. */
  predicate AfterDot(ext: string) {
    '.' !in ext && '/' !in ext
  }

  lemma {:induction false} ExtensionAfterDot(base: string, ext: string)
    requires AfterDot(ext)
    ensures Extension(base + "." + ext) == "." + Lowered(ext)
    decreases |ext|
  {
    var name := base + "." + ext;
    if ext == "" {
      assert name[|name| - 1] == '.';
    } else {
      var front, last := ext[..|ext| - 1], ext[|ext| - 1];
      assert last in ext && forall c :: c in front ==> c in ext;
      assert name[..|name| - 1] == base + "." + front && name[|name| - 1] == last;
      ExtensionAfterDot(base, front);
    }
  }

  lemma {:induction false} DotBefore(name: string) returns (base: string, ext: string)
    requires Extension(name) != ""
    ensures AfterDot(ext) && name == base + "." + ext
    decreases |name|
  {
    var front, last := name[..|name| - 1], name[|name| - 1];
    if last == '.' {
      base, ext := front, "";
    } else {
      base, ext := DotBefore(front);
      ext := ext + [last];
    }
  }

  /** Without a list every name passes; else those that end in a dot and a listed extension, in any case. */
  ghost predicate ExtensionListed(extensions: seq<string>, name: string) {
    extensions == [] || exists base, ext :: AfterDot(ext) && name == base + "." + ext && Lowered(ext) in extensions
  }

  lemma LegalExtensionIff(policy: Policy, name: string)
    ensures LegalExtension(policy, name) <==> ExtensionListed(policy.extensions, name)
  {
    if LegalExtension(policy, name) && policy.extensions != [] {
      var base, ext := DotBefore(name);
      ExtensionAfterDot(base, ext);
      assert ("." + Lowered(ext))[1..] == Lowered(ext);
    }
    if base, ext :| AfterDot(ext) && name == base + "." + ext && Lowered(ext) in policy.extensions {
      ExtensionAfterDot(base, ext);
      assert ("." + Lowered(ext))[1..] == Lowered(ext);
    }
  }

  /** The last dot decides: with a list, the name passes exactly if what comes after it is listed. */
  lemma ExtensionListedIff(extensions: seq<string>, base: string, ext: string)
    requires extensions != [] && AfterDot(ext)
    ensures ExtensionListed(extensions, base + "." + ext) <==> Lowered(ext) in extensions
  {
    var name := base + "." + ext;
    if b, e :| AfterDot(e) && name == b + "." + e && Lowered(e) in extensions {
      SameEnd(base, ext, b, e);
    }
  }

  /** Without a dot it does not pass. */
  lemma ExtensionNotListed(extensions: seq<string>, name: string)
    requires extensions != [] && '.' !in name
    ensures !ExtensionListed(extensions, name)
  {
    forall base: string, ext: string
      ensures '.' in base + "." + ext
    {
      assert (base + "." + ext)[|base|] == '.';
    }
  }

  lemma SameEnd(base: string, ext: string, b: string, e: string)
    requires AfterDot(ext) && AfterDot(e) && base + "." + ext == b + "." + e
    ensures ext == e
  {
    var name := base + "." + ext;
    assert name[|base|] == '.' && name[|b|] == '.';
    assert forall i :: |base| < i < |name| ==> name[i] == ext[i - |base| - 1];
    assert forall i :: |b| < i < |name| ==> name[i] == e[i - |b| - 1];
    assert |base| == |b|;
    assert ext == name[|base| + 1..] && e == name[|b| + 1..];
  }

  predicate IsReserved(c: char) {
    c == '\\' || c == '?' || c == '*' || c == '<' || c == '"' || c == ':' || c == '>' || c == '/' || c == '|'
  }

  /** Up to 255 characters, none of them reserved, the last of them no space. */
  ghost predicate ProperName(name: string) {
    && 1 <= |name| <= 255 && name[|name| - 1] != ' '
    && forall i :: 0 <= i < |name| ==> !IsReserved(name[i])
  }

  lemma ReservedIs(c: char)
    ensures c in RESERVED <==> IsReserved(c)
  {
    assert |RESERVED| == 9;
    if IsReserved(c) {
      assert RESERVED[0] == '\\' && RESERVED[1] == '?' && RESERVED[2] == '*' && RESERVED[3] == '<'
          && RESERVED[4] == '"' && RESERVED[5] == ':' && RESERVED[6] == '>' && RESERVED[7] == '/' && RESERVED[8] == '|';
    }
  }

  lemma LegalNameIff(name: string)
    ensures LegalName(name) <==> ProperName(name)
  {
    forall i | 0 <= i < |name|
      ensures name[i] in RESERVED <==> IsReserved(name[i])
    {
      ReservedIs(name[i]);
    }
  }

  /** What a policy accepts. */
  ghost predicate Acceptable(policy: Policy, name: string, size: nat) {
    (policy.maxSize > 0 ==> size <= policy.maxSize) && ProperName(name) && ExtensionListed(policy.extensions, name)
  }

  lemma AllowedIff(policy: Policy, name: string, size: nat)
    ensures Allowed(policy, name, size) <==> Acceptable(policy, name, size)
  {
    hide LegalName, ProperName, LegalExtension, ExtensionListed;
    LegalNameIff(name);
    LegalExtensionIff(policy, name);
  }
}
