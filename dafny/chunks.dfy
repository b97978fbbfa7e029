/**
 * The bundle splitting rule of the build configuration: a module is put in a
 * named chunk by the first rule whose substring its id contains, and a module
 * outside `node_modules` that matches no rule is left to the bundler
 * (`undefined`, here `None`).
 */
module BuildChunks {
  import opened Wrappers
  import opened Strings

  /** `manualChunks(id)`, rule by rule. */
  function ManualChunks(id: string): Option<string>
  {
    if Contains(id, "monaco-editor") || Contains(id, "@monaco-editor") then Some("monaco-editor")
    else if Contains(id, "react") || Contains(id, "react-dom") then Some("react-vendor")
    else if Contains(id, "@radix-ui") then Some("radix-ui")
    else if Contains(id, "react-markdown") || Contains(id, "remark-") || Contains(id, "rehype-") then Some("markdown")
    else if Contains(id, "katex") || Contains(id, "react-katex") then Some("katex")
    else if Contains(id, "react-syntax-highlighter") then Some("syntax-highlighter")
    else if Contains(id, "react-router") then Some("router")
    else if Contains(id, "lodash") || Contains(id, "axios") || Contains(id, "zustand") then Some("utils")
    else if Contains(id, "@babel") then Some("babel")
    else if Contains(id, "node_modules") then Some("vendor")
    else None
  }

  /** Every substring some rule looks for. */
  predicate MatchesSomeRule(id: string)
  {
    Contains(id, "monaco-editor") || Contains(id, "@monaco-editor") || Contains(id, "react")
    || Contains(id, "react-dom") || Contains(id, "@radix-ui") || Contains(id, "react-markdown")
    || Contains(id, "remark-") || Contains(id, "rehype-") || Contains(id, "katex")
    || Contains(id, "react-katex") || Contains(id, "react-syntax-highlighter") || Contains(id, "react-router")
    || Contains(id, "lodash") || Contains(id, "axios") || Contains(id, "zustand") || Contains(id, "@babel")
    || Contains(id, "node_modules")
  }

  /** Whatever else it contains, an id with `monaco-editor` goes to the editor chunk. */
  lemma MonacoFirst(id: string)
    requires Contains(id, "monaco-editor")
    ensures ManualChunks(id) == Some("monaco-editor")
  {
  }

  /** Any other id that mentions `react` goes to the React chunk. */
  lemma ReactVendor(id: string)
    requires Contains(id, "react") && !Contains(id, "monaco-editor") && !Contains(id, "@monaco-editor")
    ensures ManualChunks(id) == Some("react-vendor")
  {
  }

  /** `s` contains `t` when `t` is a prefix of `u` and `s` contains `u`. */
  lemma ContainsViaPrefix(s: string, u: string, t: string)
    requires Contains(s, u) && StartsWith(u, t)
    ensures Contains(s, t)
  {
    ContainsOwnPrefix(u, t);
    ContainsTransitive(s, u, t);
  }

  /**
   * The syntax highlighter and router rules can never fire: their substrings
   * contain `react`, so the React rule has already claimed the id.
   */
  lemma {:induction false} HighlighterAndRouterUnreachable(id: string)
    ensures ManualChunks(id) != Some("syntax-highlighter")
    ensures ManualChunks(id) != Some("router")
  {
    if Contains(id, "react-syntax-highlighter") {
      ContainsViaPrefix(id, "react-syntax-highlighter", "react");
    }
    if Contains(id, "react-router") {
      ContainsViaPrefix(id, "react-router", "react");
    }
  }

  /**
   * The markdown chunk takes exactly the ids with `remark-` or `rehype-` that
   * the editor, React and Radix rules left: `react-markdown` itself is
   * claimed by the React rule.
   */
  lemma {:induction false} MarkdownChunk(id: string)
    ensures ManualChunks(id) == Some("markdown") <==>
      (Contains(id, "remark-") || Contains(id, "rehype-"))
      && !Contains(id, "monaco-editor") && !Contains(id, "react") && !Contains(id, "@radix-ui")
  {
    if Contains(id, "@monaco-editor") {
      ContainsSuffix(id, "@monaco-editor");
      assert "@monaco-editor"[1..] == "monaco-editor";
    }
    if Contains(id, "react-dom") {
      ContainsViaPrefix(id, "react-dom", "react");
    }
    if Contains(id, "react-markdown") {
      ContainsViaPrefix(id, "react-markdown", "react");
    }
  }

  /** If `s` contains `t`, it contains every suffix of `t`, in particular `t[1..]`. */
  lemma ContainsSuffix(s: string, t: string)
    requires Contains(s, t) && |t| >= 1
    ensures Contains(s, t[1..])
  {
    ContainsIff(s, t);
    var i :| OccursAt(s, t, i);
    assert s[i + 1..i + 1 + |t[1..]|] == t[1..];
    assert OccursAt(s, t[1..], i + 1);
    ContainsIff(s, t[1..]);
  }

  /** No chunk name exactly for the ids that match no rule, `node_modules` included. */
  lemma UndefinedIff(id: string)
    ensures ManualChunks(id) == None <==> !MatchesSomeRule(id)
  {
  }

  /**
   * The rules in the order their comments describe them: the libraries with a
   * chunk of their own are tested before the catch-all `react` rule, so that
   * the Radix, markdown, KaTeX, highlighter and router packages, whose names
   * contain `react`, reach their chunks.
   */
  function ManualChunksIntended(id: string): Option<string>
  {
    if Contains(id, "monaco-editor") || Contains(id, "@monaco-editor") then Some("monaco-editor")
    else if Contains(id, "@radix-ui") then Some("radix-ui")
    else if Contains(id, "react-markdown") || Contains(id, "remark-") || Contains(id, "rehype-") then Some("markdown")
    else if Contains(id, "katex") || Contains(id, "react-katex") then Some("katex")
    else if Contains(id, "react-syntax-highlighter") then Some("syntax-highlighter")
    else if Contains(id, "react-router") then Some("router")
    else if Contains(id, "react") || Contains(id, "react-dom") then Some("react-vendor")
    else if Contains(id, "lodash") || Contains(id, "axios") || Contains(id, "zustand") then Some("utils")
    else if Contains(id, "@babel") then Some("babel")
    else if Contains(id, "node_modules") then Some("vendor")
    else None
  }

  /**
   * An id carrying the highlighter package and none of the substrings of the
   * rules before it: the rules as written put it in the React chunk, the
   * intended order in the highlighter chunk.
   */
  lemma HighlighterOrder(id: string)
    requires Contains(id, "react-syntax-highlighter")
    requires !Contains(id, "monaco-editor") && !Contains(id, "@monaco-editor") && !Contains(id, "@radix-ui")
    requires !Contains(id, "react-markdown") && !Contains(id, "remark-") && !Contains(id, "rehype-")
    requires !Contains(id, "katex") && !Contains(id, "react-katex")
    ensures ManualChunks(id) == Some("react-vendor")
    ensures ManualChunksIntended(id) == Some("syntax-highlighter")
  {
    ContainsViaPrefix(id, "react-syntax-highlighter", "react");
  }

  /** The same for the router package, which the intended order tests after the highlighter. */
  lemma RouterOrder(id: string)
    requires Contains(id, "react-router")
    requires !Contains(id, "monaco-editor") && !Contains(id, "@monaco-editor") && !Contains(id, "@radix-ui")
    requires !Contains(id, "react-markdown") && !Contains(id, "remark-") && !Contains(id, "rehype-")
    requires !Contains(id, "katex") && !Contains(id, "react-katex") && !Contains(id, "react-syntax-highlighter")
    ensures ManualChunks(id) == Some("react-vendor")
    ensures ManualChunksIntended(id) == Some("router")
  {
    ContainsViaPrefix(id, "react-router", "react");
  }

  /** A string lacking a letter of `t` does not contain `t`. */
  lemma MissingLetter(s: string, t: string, k: nat)
    requires k < |t| && t[k] !in s
    ensures !Contains(s, t)
  {
    forall i | 0 <= i && i + |t| <= |s|
      ensures !OccursAt(s, t, i)
    {
      assert s[i..i + |t|][k] == s[i + k];
      assert s[i + k] in s;
    }
    ContainsIff(s, t);
  }

  /** An id without the letters `m`, `@`, `k` and `p` matches none of the rules before the highlighter's. */
  lemma NoEarlierRule(s: string)
    requires 'm' !in s && '@' !in s && 'k' !in s && 'p' !in s
    ensures !Contains(s, "monaco-editor") && !Contains(s, "@monaco-editor") && !Contains(s, "@radix-ui")
    ensures !Contains(s, "react-markdown") && !Contains(s, "remark-") && !Contains(s, "rehype-")
    ensures !Contains(s, "katex") && !Contains(s, "react-katex")
  {
    MissingLetter(s, "monaco-editor", 0);
    MissingLetter(s, "@monaco-editor", 0);
    MissingLetter(s, "@radix-ui", 0);
    MissingLetter(s, "react-markdown", 9);
    MissingLetter(s, "remark-", 2);
    MissingLetter(s, "rehype-", 4);
    MissingLetter(s, "katex", 0);
    MissingLetter(s, "react-katex", 6);
  }

  /** Any id that starts with the highlighter package and lacks the letters of the earlier rules. */
  lemma HighlighterPackage(h: string)
    requires StartsWith(h, "react-syntax-highlighter")
    requires 'm' !in h && '@' !in h && 'k' !in h && 'p' !in h
    ensures ManualChunks(h) == Some("react-vendor")
    ensures ManualChunksIntended(h) == Some("syntax-highlighter")
  {
    NoEarlierRule(h);
    HighlighterOrder(h);
  }

  /** Any id that starts with the router package and lacks the letters of the earlier rules. */
  lemma RouterPackage(r: string)
    requires StartsWith(r, "react-router")
    requires 'm' !in r && '@' !in r && 'k' !in r && 'p' !in r && 'y' !in r
    ensures ManualChunks(r) == Some("react-vendor")
    ensures ManualChunksIntended(r) == Some("router")
  {
    NoEarlierRule(r);
    MissingLetter(r, "react-syntax-highlighter", 7);
    RouterOrder(r);
  }

  /** The highlighter package id itself: as written its chunk stays empty. */
  lemma ReactRuleClaimsHighlighter()
    ensures ManualChunks("react-syntax-highlighter") == Some("react-vendor")
  {
    HighlighterPackage("react-syntax-highlighter");
  }

  /** With the intended order the highlighter package id reaches its chunk. */
  lemma IntendedHighlighterChunk()
    ensures ManualChunksIntended("react-syntax-highlighter") == Some("syntax-highlighter")
  {
    HighlighterPackage("react-syntax-highlighter");
  }

  /** The router package id itself: as written its chunk stays empty. */
  lemma ReactRuleClaimsRouter()
    ensures ManualChunks("react-router") == Some("react-vendor")
  {
    RouterPackage("react-router");
  }

  /** With the intended order the router package id reaches its chunk. */
  lemma IntendedRouterChunk()
    ensures ManualChunksIntended("react-router") == Some("router")
  {
    RouterPackage("react-router");
  }

  /** Every dependency from `node_modules` gets a chunk. */
  lemma NodeModulesAlwaysNamed(id: string)
    requires Contains(id, "node_modules")
    ensures ManualChunks(id).Some?
  {
  }
}
