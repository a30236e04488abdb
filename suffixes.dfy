/** The suffix table (wheeldex.py lines 75-102): which file-name endings make a module of which kind
    under a PEP 425 compatibility tag. */
module Suffixes {
  import opened Wrappers
  import opened Strings
  import opened Records

  /** A compatibility tag `<python tag>-<abi tag>-<platform tag>`, e.g. `cp36-cp36m-manylinux1_i686`. */
  datatype Tag = Tag(python: string, abi: string, platform: string)

  /** The `ValueError` raised when the tag does not unpack into three parts. */
  datatype TagError = MalformedTag(wheelTag: string)

  /** One entry of the table: a member whose name ends with `suffix` is a module of kind `kind`. */
  datatype Rule = Rule(suffix: string, kind: ModuleType)

  const InitSuffix: string := "/__init__.py"

  /** The rules every table starts with, in this order. */
  const BaseRules: seq<Rule> := [Rule(InitSuffix, Package), Rule(".py", Source), Rule(".pyc", Bytecode)]

  /** `py_tag, abi_tag, platform_tag = wheel_tag.split('-')`: succeeds exactly when the tag holds
      two dashes, and then the three parts put back together with dashes give the tag. */
  function ParseTag(wheelTag: string): (r: Option<Tag>)
    ensures r.Some? <==> CountChar(wheelTag, '-') == 2
    ensures r.Some? ==> var t := r.value;
      && wheelTag == t.python + "-" + t.abi + "-" + t.platform
      && '-' !in t.python && '-' !in t.abi && '-' !in t.platform
  {
    var parts := Split(wheelTag, '-');
    SplitParts(wheelTag, '-');
    if |parts| == 3 then
      JoinPeelTwo(parts, '-');
      assert parts[2..] == [parts[2]];
      Some(Tag(parts[0], parts[1], parts[2]))
    else None
  }

  /** The architecture named in the CPython extension suffix on manylinux. */
  function LinuxArch(platform: string): string
  {
    if EndsWith(platform, "x86_64") then "x86_64" else "i386"
  }

  /** The ordered rule table for a tag. */
  function SuffixTable(t: Tag): (rules: seq<Rule>)
    ensures |rules| >= 3 && rules[..3] == BaseRules
    ensures forall i :: 3 <= i < |rules| ==> rules[i].kind == Extension
    ensures StartsWith(t.platform, "manylinux") ==>
      && rules[|rules| - 1] == Rule(".so", Extension)
      && |rules| == (if StartsWith(t.abi, "cp") || StartsWith(t.abi, "abi") then 5 else 4)
      && (StartsWith(t.abi, "cp") ==>
            rules[3] == Rule(".cpython-" + t.abi[2..] + "-" + LinuxArch(t.platform) + "-linux-gnu.so", Extension))
      && (!StartsWith(t.abi, "cp") && StartsWith(t.abi, "abi") ==> rules[3] == Rule("." + t.abi + ".so", Extension))
    ensures !StartsWith(t.platform, "manylinux") && StartsWith(t.platform, "win") ==>
      && rules[|rules| - 1] == Rule(".pyd", Extension)
      && |rules| == (if StartsWith(t.python, "cp") then 5 else 4)
      && (StartsWith(t.python, "cp") ==> rules[3] == Rule("." + t.python + "-" + t.platform + ".pyd", Extension))
    ensures !StartsWith(t.platform, "manylinux") && !StartsWith(t.platform, "win") ==> rules == BaseRules
  {
    if StartsWith(t.platform, "manylinux") then
      var specific :=
        if StartsWith(t.abi, "cp") then
          [Rule(".cpython-" + t.abi[2..] + "-" + LinuxArch(t.platform) + "-linux-gnu.so", Extension)]
        else if StartsWith(t.abi, "abi") then [Rule("." + t.abi + ".so", Extension)]
        else [];
      BaseRules + specific + [Rule(".so", Extension)]
    else if StartsWith(t.platform, "win") then
      var specific := if StartsWith(t.python, "cp") then [Rule("." + t.python + "-" + t.platform + ".pyd", Extension)] else [];
      BaseRules + specific + [Rule(".pyd", Extension)]
    else BaseRules
  }

  /** `get_module_suffixes`: parse the tag, then build the table by appending to a list. */
  method GetModuleSuffixes(wheelTag: string) returns (r: Result<seq<Rule>, TagError>)
    ensures r.Failure? <==> ParseTag(wheelTag).None?
    ensures r.Failure? ==> r.error == MalformedTag(wheelTag)
    ensures r.Success? ==> r.value == SuffixTable(ParseTag(wheelTag).value)
  {
    var parsed := ParseTag(wheelTag);
    if parsed.None? {
      return Failure(MalformedTag(wheelTag));
    }
    var pyTag, abiTag, platformTag := parsed.value.python, parsed.value.abi, parsed.value.platform;
    var d := [Rule(InitSuffix, Package), Rule(".py", Source), Rule(".pyc", Bytecode)];
    if StartsWith(platformTag, "manylinux") {
      if StartsWith(abiTag, "cp") {
        var arch := if EndsWith(platformTag, "x86_64") then "x86_64" else "i386";
        var ext := ".cpython-" + abiTag[2..] + "-" + arch + "-linux-gnu.so";
        d := d + [Rule(ext, Extension)];
      } else if StartsWith(abiTag, "abi") {
        d := d + [Rule("." + abiTag + ".so", Extension)];
      }
      d := d + [Rule(".so", Extension)];
    } else if StartsWith(platformTag, "win") {
      if StartsWith(pyTag, "cp") {
        d := d + [Rule("." + pyTag + "-" + platformTag + ".pyd", Extension)];
      }
      d := d + [Rule(".pyd", Extension)];
    }
    return Success(d);
  }

  /** Splitting a well-formed tag and putting it back together round-trips. */
  lemma {:induction false} ParseTagRoundTrip(t: Tag)
    requires '-' !in t.python && '-' !in t.abi && '-' !in t.platform
    ensures ParseTag(t.python + "-" + t.abi + "-" + t.platform) == Some(t)
  {
    var s := t.python + "-" + t.abi + "-" + t.platform;
    assert s == t.python + ['-'] + (t.abi + ['-'] + t.platform);
    SplitCons(t.python, '-', t.abi + ['-'] + t.platform);
    SplitCons(t.abi, '-', t.platform);
    SplitSingle(t.platform, '-');
  }
}
