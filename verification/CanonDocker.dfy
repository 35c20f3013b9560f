/** Docker command lines as canonical actions (internal/canon/docker.go). */
module CanonDocker {
  import opened Sorting

  datatype OpClass = Destroy | Mutate | Unknown

  /** A resource; its type is the tool throughout one command. */
  datatype Resource = Resource(name: string, tool: string)

  const DESTROY_SUBCOMMANDS := {"rm", "remove", "stop", "kill", "rmi", "down"}
  const MUTATE_SUBCOMMANDS := {"run", "create", "start", "restart", "update", "up", "pull", "build", "push"}

  function OperationClass(operation: string): OpClass {
    if operation in DESTROY_SUBCOMMANDS + {"delete"} then Destroy
    else if operation in MUTATE_SUBCOMMANDS then Mutate
    else Unknown
  }

  predicate IsFlag(token: string) {
    "-" <= token
  }

  function Named(tokens: seq<string>, tool: string): seq<Resource> {
    if tokens == [] then []
    else
      var front, last := Named(tokens[..|tokens| - 1], tool), tokens[|tokens| - 1];
      if IsFlag(last) then front else front + [Resource(last, tool)]
  }

  function NameFlag(tokens: seq<string>, tool: string): seq<Resource> {
    if tokens == [] then []
    else if (tokens[0] == "--name" || tokens[0] == "-n") && |tokens| > 1 then [Resource(tokens[1], tool)]
    else if "--name=" <= tokens[0] then [Resource(tokens[0][|"--name="|..], tool)]
    else NameFlag(tokens[1..], tool)
  }

  function SkipTool(tool: string, tokens: seq<string>): seq<string> {
    if tokens != [] && tokens[0] in {tool, "docker", "nerdctl"} then tokens[1..] else tokens
  }

  function ParseTokens(tool: string, operation: string, tokens: seq<string>): (OpClass, seq<Resource>) {
    var rest := SkipTool(tool, tokens);
    if rest == [] then (OperationClass(operation), [])
    else if rest[0] in DESTROY_SUBCOMMANDS then (Destroy, Named(rest[1..], tool))
    else if rest[0] in MUTATE_SUBCOMMANDS then
      (Mutate, if rest[0] == "run" || rest[0] == "create" then NameFlag(rest[1..], tool) else [])
    else (OperationClass(operation), [])
  }

  method CollectNamed(tool: string, arguments: seq<string>) returns (resources: seq<Resource>)
    ensures resources == Named(arguments, tool)
  {
    resources := [];
    for i := 0 to |arguments|
      invariant resources == Named(arguments[..i], tool)
    {
      assert arguments[..i + 1][..i] == arguments[..i];
      if IsFlag(arguments[i]) {
        continue;
      }
      resources := resources + [Resource(arguments[i], tool)];
    }
    assert arguments[..|arguments|] == arguments;
  }

  method FindNameFlag(tool: string, arguments: seq<string>) returns (resources: seq<Resource>)
    ensures resources == NameFlag(arguments, tool)
  {
    for i := 0 to |arguments|
      invariant NameFlag(arguments[i..], tool) == NameFlag(arguments, tool)
    {
      assert arguments[i..][1..] == arguments[i + 1..];
      if (arguments[i] == "--name" || arguments[i] == "-n") && i + 1 < |arguments| {
        return [Resource(arguments[i + 1], tool)];
      }
      if "--name=" <= arguments[i] {
        return [Resource(arguments[i][|"--name="|..], tool)];
      }
    }
    return [];
  }

  method ParseDockerCommand(tool: string, operation: string, tokens: seq<string>) returns (opClass: OpClass, resources: seq<Resource>)
    ensures (opClass, resources) == ParseTokens(tool, operation, tokens)
  {
    hide Named, NameFlag;
    if |tokens| == 0 {
      return OperationClass(operation), [];
    }
    var idx := 0;
    if tokens[idx] == tool || tokens[idx] == "docker" || tokens[idx] == "nerdctl" {
      idx := idx + 1;
    }
    assert SkipTool(tool, tokens) == tokens[idx..];
    if idx >= |tokens| {
      return OperationClass(operation), [];
    }
    var subcmd := tokens[idx];
    idx := idx + 1;
    assert SkipTool(tool, tokens)[1..] == tokens[idx..];
    resources := [];
    if subcmd in DESTROY_SUBCOMMANDS {
      resources := CollectNamed(tool, tokens[idx..]);
      return Destroy, resources;
    }
    if subcmd in MUTATE_SUBCOMMANDS {
      if subcmd == "run" || subcmd == "create" {
        resources := FindNameFlag(tool, tokens[idx..]);
      }
      return Mutate, resources;
    }
    return OperationClass(operation), [];
  }

  // The canonical list of resources

  function ByName(): (Resource, Resource) -> bool {
    (a: Resource, b: Resource) => Less(a.name, b.name)
  }

  /** The resources of a command before they are sorted; without any, the artifact stands for itself. */
  function Resources(tool: string, operation: string, tokens: seq<string>, artifactDigest: string): seq<Resource> {
    var found := ParseTokens(tool, operation, tokens).1;
    if found == [] then [Resource(artifactDigest, tool)] else found
  }

  predicate Sorted(resources: seq<Resource>, r: seq<Resource>) {
    multiset(r) == multiset(resources) && WeaklyAscending(ByName(), r)
  }

  /** Tokens that come to a destroying subcommand, and its arguments after it. */
  predicate Destroys(tool: string, head: seq<string>) {
    SkipTool(tool, head) != [] && |SkipTool(tool, head)| == 1 && SkipTool(tool, head)[0] in DESTROY_SUBCOMMANDS
  }

  lemma DestroyResources(tool: string, operation: string, head: seq<string>, arguments: seq<string>)
    requires Destroys(tool, head)
    ensures ParseTokens(tool, operation, head + arguments) == (Destroy, Named(arguments, tool))
  {
    assert SkipTool(tool, head + arguments) == SkipTool(tool, head) + arguments;
    assert (SkipTool(tool, head) + arguments)[1..] == arguments;
  }

  function Count(m: multiset<string>, r: Resource, tool: string): nat {
    if r.tool == tool && !IsFlag(r.name) then m[r.name] else 0
  }

  /** Each argument that is no flag is one resource. */
  lemma {:induction false} NamedCounts(arguments: seq<string>, tool: string, r: Resource)
    ensures multiset(Named(arguments, tool))[r] == Count(multiset(arguments), r, tool)
  {
    if arguments != [] {
      var front, last := arguments[..|arguments| - 1], arguments[|arguments| - 1];
      NamedCounts(front, tool, r);
      assert arguments == front + [last];
    }
  }

  lemma {:induction false} NamedTool(arguments: seq<string>, tool: string, r: Resource)
    ensures r in Named(arguments, tool) ==> r.tool == tool
  {
    if arguments != [] {
      NamedTool(arguments[..|arguments| - 1], tool, r);
    }
  }

  lemma NamedPermuted(arguments: seq<string>, permuted: seq<string>, tool: string)
    requires multiset(arguments) == multiset(permuted)
    ensures multiset(Named(arguments, tool)) == multiset(Named(permuted, tool))
  {
    forall r ensures multiset(Named(arguments, tool))[r] == multiset(Named(permuted, tool))[r] {
      NamedCounts(arguments, tool, r);
      NamedCounts(permuted, tool, r);
    }
  }

  /** Permuting the arguments of a destroying command that names something leaves its class and its resources as they are,
      whichever artifact they were read from. */
  lemma DestroyArgumentsAreOrderFree(tool: string, operation: string, head: seq<string>, arguments: seq<string>, permuted: seq<string>,
                                     digest: string, otherDigest: string, r: seq<Resource>, q: seq<Resource>)
    requires Destroys(tool, head) && multiset(arguments) == multiset(permuted) && Named(arguments, tool) != []
    requires Sorted(Resources(tool, operation, head + arguments, digest), r)
    requires Sorted(Resources(tool, operation, head + permuted, otherDigest), q)
    ensures ParseTokens(tool, operation, head + arguments).0 == ParseTokens(tool, operation, head + permuted).0 == Destroy
    ensures r == q
  {
    hide WeaklyAscending, Named, ParseTokens, Less, Destroys;
    DestroyResources(tool, operation, head, arguments);
    DestroyResources(tool, operation, head, permuted);
    NamedPermuted(arguments, permuted, tool);
    assert |multiset(Named(permuted, tool))| == |Named(permuted, tool)| && |multiset(Named(arguments, tool))| == |Named(arguments, tool)|;
    forall x, y | x in r && y in r && !ByName()(x, y) && !ByName()(y, x) ensures x == y {
      InMultiset(r, Named(arguments, tool), x);
      InMultiset(r, Named(arguments, tool), y);
      NamedTool(arguments, tool, x);
      NamedTool(arguments, tool, y);
      LessTrichotomy(x.name, y.name);
    }
    WeaklyAscendingUnique(ByName(), r, q);
  }

  /** A destroying command that names nothing stands for its own text, so there the order of its flags does matter:
      different artifacts, different resources. */
  lemma FlagsOnlyFollowTheText(tool: string, operation: string, head: seq<string>, arguments: seq<string>, permuted: seq<string>,
                               digest: string, otherDigest: string)
    requires Destroys(tool, head) && multiset(arguments) == multiset(permuted) && Named(arguments, tool) == []
    ensures Resources(tool, operation, head + arguments, digest) == Resources(tool, operation, head + permuted, otherDigest)
            <==> digest == otherDigest
  {
    hide Named, ParseTokens, Destroys;
    DestroyResources(tool, operation, head, arguments);
    DestroyResources(tool, operation, head, permuted);
    NamedPermuted(arguments, permuted, tool);
    assert |multiset(Named(permuted, tool))| == |Named(permuted, tool)|;
    assert Resources(tool, operation, head + arguments, digest)[0].name == digest;
    assert Resources(tool, operation, head + permuted, otherDigest) == [Resource(otherDigest, tool)];
  }

  // A command line, told from its tokens

  /** Where the subcommand stands: after the tool's name, if that comes first. */
  function SubcommandAt(tool: string, tokens: seq<string>): nat {
    if tokens != [] && (tokens[0] == tool || tokens[0] == "docker" || tokens[0] == "nerdctl") then 1 else 0
  }

  predicate Removes(word: string) {
    word == "rm" || word == "remove" || word == "stop" || word == "kill" || word == "rmi" || word == "down"
  }

  predicate Changes(word: string) {
    || word == "run" || word == "create" || word == "start" || word == "restart" || word == "update"
    || word == "up" || word == "pull" || word == "build" || word == "push"
  }

  /** The token at i says what follows is called: in the next token, or behind an equals sign. */
  predicate NamesNext(tokens: seq<string>, i: nat) {
    i + 1 < |tokens| && (tokens[i] == "--name" || tokens[i] == "-n")
  }

  predicate NamesItself(tokens: seq<string>, i: nat) {
    i < |tokens| && |tokens[i]| >= 7 && tokens[i][..7] == "--name="
  }

  /** The token at k is the first from i on that says so. */
  predicate FirstNaming(tokens: seq<string>, i: nat, k: nat) {
    && i <= k < |tokens| && (NamesNext(tokens, k) || NamesItself(tokens, k))
    && forall j | i <= j < k :: !NamesNext(tokens, j) && !NamesItself(tokens, j)
  }

  /** The first such token decides. */
  lemma {:induction false} NameFlagTold(tokens: seq<string>, tool: string, i: nat, k: nat)
    requires FirstNaming(tokens, i, k)
    ensures NameFlag(tokens[i..], tool) == [Resource(if NamesNext(tokens, k) then tokens[k + 1] else tokens[k][7..], tool)]
    decreases k - i
  {
    assert tokens[i..][1..] == tokens[i + 1..];
    assert "--name=" <= tokens[i] <==> NamesItself(tokens, i);
    if i < k {
      NameFlagTold(tokens, tool, i + 1, k);
    }
  }

  lemma {:induction false} NoNameFlag(tokens: seq<string>, tool: string, i: nat)
    requires i <= |tokens| && forall k | i <= k < |tokens| :: !NamesNext(tokens, k) && !NamesItself(tokens, k)
    ensures NameFlag(tokens[i..], tool) == []
    decreases |tokens| - i
  {
    if i < |tokens| {
      assert tokens[i..][1..] == tokens[i + 1..];
      assert "--name=" <= tokens[i] <==> NamesItself(tokens, i);
      NoNameFlag(tokens, tool, i + 1);
    }
  }

  /** The arguments that are no flags, as they stand. */
  lemma {:induction false} NamedTold(arguments: seq<string>, tool: string, n: nat)
    requires n < |arguments|
    ensures Named(arguments[..n + 1], tool)
         == Named(arguments[..n], tool) + if arguments[n] != "" && arguments[n][0] == '-' then [] else [Resource(arguments[n], tool)]
    ensures Named([], tool) == []
  {
    assert arguments[..n + 1][..n] == arguments[..n];
    assert "-" <= arguments[n] <==> arguments[n] != "" && arguments[n][0] == '-';
  }

  /** The subcommand decides the class, or else the operation asked for. A removing one names everything that is no flag, a
      creating one what its name flag says, any other nothing. */
  lemma DockerCommandTold(tool: string, operation: string, tokens: seq<string>)
    ensures var at, (opClass, resources) := SubcommandAt(tool, tokens), ParseTokens(tool, operation, tokens);
            var word := if at < |tokens| then tokens[at] else "";
            if Removes(word) then opClass == Destroy && resources == Named(tokens[at + 1..], tool)
            else if Changes(word) then
              opClass == Mutate && resources == if word == "run" || word == "create" then NameFlag(tokens[at + 1..], tool) else []
            else
              resources == [] && opClass == (if Removes(operation) || operation == "delete" then Destroy else if Changes(operation) then Mutate else Unknown)
  {
    hide Named, NameFlag;
    var at := SubcommandAt(tool, tokens);
    assert SkipTool(tool, tokens) == tokens[at..];
    if at < |tokens| {
      assert tokens[at..][1..] == tokens[at + 1..];
    }
  }
}
