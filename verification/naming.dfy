/** The flat-name translator: a legacy source entry `ROOT_AGENTS_<cat>_<leaf>`
    is distributed to `<cat>/<leaf>` in every target (scripts/sync_agents.py,
    `_convert_path`). */
module Naming {
  import opened Strings

  /** Prefix of the legacy flat-named source entries. */
  const LegacyPrefix: string := "ROOT_AGENTS_"

  /** Python's `s.replace("_", "/")`. */
  function UnderscoresToSlashes(s: string): (r: string)
    ensures |r| == |s|
    ensures forall k :: 0 <= k < |s| ==> r[k] == (if s[k] == '_' then '/' else s[k])
  {
    if s == [] then [] else [if s[0] == '_' then '/' else s[0]] + UnderscoresToSlashes(s[1..])
  }

  /** `_convert_path`: strip one leading `ROOT_AGENTS_`, then turn every `_`
      into `/`. */
  function ConvertPath(name: string): (r: string)
    ensures '_' !in r
    ensures HasPrefix(name, LegacyPrefix) ==> |r| + |LegacyPrefix| == |name|
    ensures !HasPrefix(name, LegacyPrefix) ==> |r| == |name|
    ensures var t := RemovePrefix(name, LegacyPrefix);
      |r| == |t| && forall k :: 0 <= k < |t| ==> r[k] == (if t[k] == '_' then '/' else t[k])
  {
    UnderscoresToSlashes(RemovePrefix(name, LegacyPrefix))
  }

  /** A string without `_` is left alone by the replacement. */
  lemma {:induction false} NoUnderscoreUnchanged(s: string)
    requires '_' !in s
    ensures UnderscoresToSlashes(s) == s
  {
    var r := UnderscoresToSlashes(s);
    assert forall k :: 0 <= k < |s| ==> r[k] == s[k];
  }

  /** Translating a translated name changes nothing: the result has no `_`,
      so it carries no `ROOT_AGENTS_` prefix and nothing left to replace. */
  lemma {:induction false} ConvertPathIdempotent(name: string)
    ensures ConvertPath(ConvertPath(name)) == ConvertPath(name)
  {
    var r := ConvertPath(name);
    assert RemovePrefix(r, LegacyPrefix) == r;
    NoUnderscoreUnchanged(r);
  }

  /** Two legacy names (entries of one directory, so without `/`) never
      translate to the same relative path. */
  lemma {:induction false} ConvertPathInjective(a: string, b: string)
    requires HasPrefix(a, LegacyPrefix) && HasPrefix(b, LegacyPrefix)
    requires '/' !in a && '/' !in b
    requires ConvertPath(a) == ConvertPath(b)
    ensures a == b
  {
    var ta := RemovePrefix(a, LegacyPrefix);
    var tb := RemovePrefix(b, LegacyPrefix);
    var r := ConvertPath(a);
    assert |ta| == |tb| == |r|;
    forall k | 0 <= k < |ta| ensures ta[k] == tb[k] {
      assert ta[k] == a[|LegacyPrefix| + k];
      assert tb[k] == b[|LegacyPrefix| + k];
      assert r[k] == UnderscoresToSlashes(ta)[k] == UnderscoresToSlashes(tb)[k];
    }
    assert ta == tb;
  }

  /** A name with the legacy prefix translates to `expected` when `expected`
      is its remainder with `_` read as `/`. */
  lemma TranslatesTo(name: string, expected: string)
    requires HasPrefix(name, LegacyPrefix)
    requires |expected| + |LegacyPrefix| == |name|
    requires forall k :: 0 <= k < |expected| ==>
      expected[k] == (if name[|LegacyPrefix| + k] == '_' then '/' else name[|LegacyPrefix| + k])
    ensures ConvertPath(name) == expected
  {
  }

  lemma CommandExample()
    ensures ConvertPath("ROOT_AGENTS_commands_strict.md") == "commands/strict.md"
  {
    TranslatesTo("ROOT_AGENTS_commands_strict.md", "commands/strict.md");
  }

  lemma SkillExample()
    ensures ConvertPath("ROOT_AGENTS_skills_my-skill") == "skills/my-skill"
  {
    TranslatesTo("ROOT_AGENTS_skills_my-skill", "skills/my-skill");
  }

  /** The naming convention's documented examples. */
  lemma ConvertPathExamples()
    ensures ConvertPath("ROOT_AGENTS_commands_strict.md") == "commands/strict.md"
    ensures ConvertPath("ROOT_AGENTS_skills_my-skill") == "skills/my-skill"
  {
    CommandExample();
    SkillExample();
  }
}
