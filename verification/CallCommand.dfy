/** Parsing of batched configuration commands: groups of words separated by three slashes, the first
    word of a group naming the command behind its slash-terminated roles. */
module CallCommand {

  const SEPARATOR := "///"

  datatype Command = Command(roles: seq<string>, cmd: string, args: seq<string>)

  // ---------- One word: roles and a command name ----------

  /** The first position of the slash, or -1. */
  function IndexOfSlash(s: string): (pos: int)
    ensures -1 <= pos < |s|
    ensures pos >= 0 ==> s[pos] == '/' && '/' !in s[..pos]
    ensures pos < 0 ==> '/' !in s
  {
    if s == "" then -1
    else if s[0] == '/' then 0
    else
      var rest := IndexOfSlash(s[1..]);
      if rest < 0 then -1 else
        assert s[..rest + 1] == [s[0]] + s[1..][..rest];
        rest + 1
  }

  function RolesOf(word: string): seq<string>
    decreases |word|
  {
    var pos := IndexOfSlash(word);
    if pos < 0 then [] else [word[..pos]] + RolesOf(word[pos + 1..])
  }

  function NameOf(word: string): string
    decreases |word|
  {
    var pos := IndexOfSlash(word);
    if pos < 0 then word else NameOf(word[pos + 1..])
  }

  /** Writing the word back: every role, each closed by a slash, and the name. */
  function Word(roles: seq<string>, name: string): string {
    if roles == [] then name else roles[0] + "/" + Word(roles[1..], name)
  }

  ghost predicate SlashFree(s: string) {
    '/' !in s
  }

  lemma {:induction false} FirstSlash(a: string, b: string)
    requires SlashFree(a)
    ensures IndexOfSlash(a + "/" + b) == |a|
  {
    var word := a + "/" + b;
    if a != "" {
      FirstSlash(a[1..], b);
      assert word[1..] == a[1..] + "/" + b;
      assert word[0] == a[0] && a[0] in a;
    }
  }

  lemma {:induction false} WordRoundTrip(roles: seq<string>, name: string)
    requires SlashFree(name) && forall i :: 0 <= i < |roles| ==> SlashFree(roles[i])
    ensures RolesOf(Word(roles, name)) == roles && NameOf(Word(roles, name)) == name
  {
    if roles != [] {
      WordRoundTrip(roles[1..], name);
      FirstSlash(roles[0], Word(roles[1..], name));
      Parts(roles[0], Word(roles[1..], name));
      assert roles == [roles[0]] + roles[1..];
    }
  }

  lemma Parts(a: string, b: string)
    ensures (a + "/" + b)[..|a|] == a && (a + "/" + b)[|a| + 1..] == b
  {
  }

  lemma {:induction false} WordOfParts(word: string)
    ensures Word(RolesOf(word), NameOf(word)) == word
    ensures SlashFree(NameOf(word)) && forall i :: 0 <= i < |RolesOf(word)| ==> SlashFree(RolesOf(word)[i])
    decreases |word|
  {
    var pos := IndexOfSlash(word);
    if pos >= 0 {
      var role, rest := word[..pos], word[pos + 1..];
      SlashSplits(word, pos);
      WordOfParts(rest);
      WordJoins(role, RolesOf(rest), NameOf(rest));
      assert RolesOf(word) == [role] + RolesOf(rest) && NameOf(word) == NameOf(rest);
      assert SlashFree(role);
      hide *;
    }
  }

  lemma SlashSplits(word: string, pos: nat)
    requires pos < |word| && word[pos] == '/'
    ensures word == word[..pos] + "/" + word[pos + 1..]
  {
  }

  lemma WordJoins(role: string, roles: seq<string>, name: string)
    ensures Word([role] + roles, name) == role + "/" + Word(roles, name)
  {
    assert ([role] + roles)[1..] == roles;
  }

  // ---------- A list of words ----------

  function CommandOf(defaults: seq<string>, group: seq<string>): Command
    requires group != []
  {
    Command(defaults + RolesOf(group[0]), NameOf(group[0]), group[1..])
  }

  /** The scan: pending holds the words since the last command. A separator closes a command, unless
      nothing is pending; then it stays pending itself. */
  function Scan(defaults: seq<string>, pending: seq<string>, words: seq<string>): seq<Command>
    decreases |words|
  {
    if words == [] then []
    else if words[0] != SEPARATOR || pending == [] then Scan(defaults, pending + [words[0]], words[1..])
    else [CommandOf(defaults, pending)] + Scan(defaults, [], words[1..])
  }

  /** The inner loop: roles are cut off the word one slash at a time. */
  method SplitWord(roleList: seq<string>, word: string) returns (roles: seq<string>, cmd: string)
    ensures roles == roleList + RolesOf(word) && cmd == NameOf(word)
  {
    cmd := word;
    roles := roleList;
    while true
      invariant roles + RolesOf(cmd) == roleList + RolesOf(word)
      invariant NameOf(cmd) == NameOf(word)
      decreases |cmd|
    {
      var pos := IndexOfSlash(cmd);
      if pos < 0 {
        break;
      }
      roles := roles + [cmd[..pos]];
      cmd := cmd[pos + 1..];
    }
  }

  /** One step of the scan, for a cursor at i and a command that starts at j. */
  lemma ScanStep(defaults: seq<string>, args: seq<string>, j: nat, i: nat)
    requires j <= i < |args|
    ensures
      Scan(defaults, args[j..i], args[i..])
      == if args[i] != SEPARATOR || i == j then Scan(defaults, args[j..i + 1], args[i + 1..])
         else [Command(defaults + RolesOf(args[j]), NameOf(args[j]), args[j + 1..i])]
              + Scan(defaults, args[i + 1..i + 1], args[i + 1..])
  {
    var pending, words := args[j..i], args[i..];
    assert words[0] == args[i] && words[1..] == args[i + 1..];
    assert pending == [] <==> i == j;
    if args[i] != SEPARATOR || i == j {
      assert pending + [words[0]] == args[j..i + 1];
      assert Scan(defaults, pending, words) == Scan(defaults, pending + [words[0]], words[1..]);
    } else {
      assert pending[0] == args[j] && pending[1..] == args[j + 1..i] && args[i + 1..i + 1] == [];
      assert Scan(defaults, pending, words) == [CommandOf(defaults, pending)] + Scan(defaults, [], words[1..]);
    }
    hide RolesOf, NameOf;
  }

  datatype Parsed<+T> = Parsed(value: T) | SyntaxError

  /** The roles of every command: none, the option itself, or the list that the option spells out. What
      the JSON parser makes of a text is given. */
  method ParseRoles(option: string, json: string -> Parsed<seq<string>>) returns (roles: Parsed<seq<string>>)
    ensures option == "" ==> roles == Parsed([])
    ensures option != "" && option[0] != '[' ==> roles == Parsed([option])
    ensures option != "" && option[0] == '[' ==> roles == json(option)
  {
    if option == "" {
      roles := Parsed([]);
    } else if option[0] != '[' {
      roles := Parsed([option]);
    } else {
      roles := json(option);
    }
  }

  /** The words of some commands, with or without one trailing separator. */
  ghost predicate Writes(args: seq<string>, cmds: seq<Command>) {
    && cmds != [] && (forall i :: 0 <= i < |cmds| ==> Writable(cmds[i]))
    && (args == Written(cmds) || args == Written(cmds) + [SEPARATOR])
  }

  method PrepareArgs(option: string, json: string -> Parsed<seq<string>>, givenArgs: seq<string>)
    returns (result: Parsed<seq<Command>>)
    ensures option == "" ==> result == Parsed(Scan([], [], givenArgs + [SEPARATOR]))
    ensures option != "" && option[0] != '[' ==> result == Parsed(Scan([option], [], givenArgs + [SEPARATOR]))
    ensures option != "" && option[0] == '[' ==>
              if json(option).SyntaxError? then result == SyntaxError
              else result == Parsed(Scan(json(option).value, [], givenArgs + [SEPARATOR]))
    ensures option == "" ==> forall cmds | Writes(givenArgs, cmds) :: result == Parsed(WithRoles([], cmds))
    ensures option != "" && option[0] != '[' ==>
              forall cmds | Writes(givenArgs, cmds) :: result == Parsed(WithRoles([option], cmds))
    ensures option != "" && option[0] == '[' && json(option).Parsed? ==>
              forall cmds | Writes(givenArgs, cmds) :: result == Parsed(WithRoles(json(option).value, cmds))
  {
    var roles := ParseRoles(option, json);
    if roles.SyntaxError? {
      return SyntaxError;
    }
    var roleList := roles.value;
    forall cmds | Writes(givenArgs, cmds)
      ensures Scan(roleList, [], givenArgs + [SEPARATOR]) == WithRoles(roleList, cmds)
    {
      ParsesWritten(roleList, cmds);
    }
    hide Writes, WithRoles;
    var args := givenArgs + [SEPARATOR];
    var cmds: seq<Command> := [];
    var j := 0;
    var i := 0;
    while i < |args|
      invariant 0 <= j <= i <= |args|
      invariant cmds + Scan(roleList, args[j..i], args[i..]) == Scan(roleList, [], args)
    {
      hide Scan;
      ScanStep(roleList, args, j, i);
      if args[i] != SEPARATOR || i == j {
        i := i + 1;
        continue;
      }
      var wordRoles, cmd := SplitWord(roleList, args[j]);
      cmds := cmds + [Command(wordRoles, cmd, args[j + 1..i])];
      j := i + 1;
      i := i + 1;
    }
    assert args[i..] == [] && cmds == Scan(roleList, [], args);
    result := Parsed(cmds);
  }

  // ---------- What the scan means ----------

  ghost predicate Plain(group: seq<string>) {
    SEPARATOR !in group
  }

  /** The words of some groups, each closed by a separator. */
  function Flatten(groups: seq<seq<string>>): seq<string> {
    if groups == [] then [] else groups[0] + [SEPARATOR] + Flatten(groups[1..])
  }

  /** One command for every group with a word in it. */
  function CommandsOf(defaults: seq<string>, groups: seq<seq<string>>): seq<Command> {
    if groups == [] then []
    else if groups[0] == [] then CommandsOf(defaults, groups[1..])
    else [CommandOf(defaults, groups[0])] + CommandsOf(defaults, groups[1..])
  }

  /** Only the last group may be empty: no leading and no doubled separators. */
  ghost predicate NoGaps(groups: seq<seq<string>>) {
    forall i :: 0 <= i < |groups| - 1 ==> groups[i] != []
  }

  /** A group closes into one command made of what was pending and its own words. */
  lemma {:induction false} ScanGroup(defaults: seq<string>, pending: seq<string>, group: seq<string>, rest: seq<string>)
    requires Plain(group) && pending + group != []
    ensures Scan(defaults, pending, group + [SEPARATOR] + rest)
            == [CommandOf(defaults, pending + group)] + Scan(defaults, [], rest)
    decreases |group|
  {
    var words := group + [SEPARATOR] + rest;
    if group == [] {
      assert words[0] == SEPARATOR && words[1..] == rest && pending + group == pending;
    } else {
      assert words[0] == group[0] && group[0] in group;
      assert words[1..] == group[1..] + [SEPARATOR] + rest;
      ScanGroup(defaults, pending + [group[0]], group[1..], rest);
      assert pending + [group[0]] + group[1..] == pending + group;
    }
  }

  lemma {:induction false} ScanWithoutGaps(defaults: seq<string>, groups: seq<seq<string>>)
    requires (forall i :: 0 <= i < |groups| ==> Plain(groups[i])) && NoGaps(groups)
    ensures Scan(defaults, [], Flatten(groups)) == CommandsOf(defaults, groups)
  {
    if groups != [] {
      if groups[0] == [] {
        assert Flatten(groups) == [SEPARATOR];
        assert Scan(defaults, [SEPARATOR], []) == [];
      } else {
        assert NoGaps(groups[1..]) by {
          assert forall i :: 0 <= i < |groups| - 2 ==> groups[1..][i] == groups[i + 1];
        }
        ScanGroup(defaults, [], groups[0], Flatten(groups[1..]));
        ScanWithoutGaps(defaults, groups[1..]);
        assert [] + groups[0] == groups[0];
      }
    }
  }

  /** A gap swallows the next group: a separator is taken for the command word. */
  lemma {:induction false} ScanWithGaps(defaults: seq<string>, groups: seq<seq<string>>)
    requires (forall i :: 0 <= i < |groups| ==> Plain(groups[i])) && !NoGaps(groups)
    ensures Scan(defaults, [], Flatten(groups)) != CommandsOf(defaults, groups)
  {
    var rest := groups[1..];
    if groups[0] == [] {
      ScanGap(defaults, groups);
      SwallowedDiffers(defaults, rest);
    } else {
      ScanGroup(defaults, [], groups[0], Flatten(rest));
      assert [] + groups[0] == groups[0];
      assert !NoGaps(rest) by {
        var i :| 0 <= i < |groups| - 1 && groups[i] == [];
        assert rest[i - 1] == groups[i];
      }
      ScanWithGaps(defaults, rest);
      PrefixCancels([CommandOf(defaults, groups[0])], Scan(defaults, [], Flatten(rest)), CommandsOf(defaults, rest));
    }
  }

  lemma ScanGap(defaults: seq<string>, groups: seq<seq<string>>)
    requires (forall i :: 0 <= i < |groups| ==> Plain(groups[i])) && |groups| > 1 && groups[0] == []
    ensures Scan(defaults, [], Flatten(groups))
            == [CommandOf(defaults, [SEPARATOR] + groups[1])] + Scan(defaults, [], Flatten(groups[2..]))
  {
    var rest := groups[1..];
    assert rest[1..] == groups[2..];
    assert Flatten(groups) == [SEPARATOR] + Flatten(rest);
    assert [] + [SEPARATOR] == [SEPARATOR];
    ScanGroup(defaults, [SEPARATOR], rest[0], Flatten(rest[1..]));
  }

  lemma PrefixCancels<T>(d: seq<T>, a: seq<T>, b: seq<T>)
    ensures d + a == d + b ==> a == b
  {
    assert (d + a)[|d|..] == a && (d + b)[|d|..] == b;
  }

  /** The command made of a swallowed group is not the first command of the groups. */
  lemma {:induction false} SwallowedDiffers(defaults: seq<string>, groups: seq<seq<string>>)
    requires groups != [] && forall i :: 0 <= i < |groups| ==> Plain(groups[i])
    ensures CommandsOf(defaults, groups) == []
            || CommandsOf(defaults, groups)[0] != CommandOf(defaults, [SEPARATOR] + groups[0])
  {
    var swallowed := CommandOf(defaults, [SEPARATOR] + groups[0]);
    assert swallowed.args == groups[0];
    if groups[0] == [] {
      assert [SEPARATOR] + groups[0] == [SEPARATOR];
      FirstIsPlain(defaults, groups);
    }
  }

  lemma CommandTellsWord(defaults: seq<string>, word: string, other: string)
    ensures RolesOf(word) == RolesOf(other) && NameOf(word) == NameOf(other) ==> word == other
    ensures defaults + RolesOf(word) == defaults + RolesOf(other) ==> RolesOf(word) == RolesOf(other)
  {
    WordOfParts(word);
    WordOfParts(other);
    PrefixCancels(defaults, RolesOf(word), RolesOf(other));
  }

  lemma {:induction false} FirstIsPlain(defaults: seq<string>, groups: seq<seq<string>>)
    requires forall i :: 0 <= i < |groups| ==> Plain(groups[i])
    ensures CommandsOf(defaults, groups) == [] || CommandsOf(defaults, groups)[0] != CommandOf(defaults, [SEPARATOR])
  {
    if groups != [] {
      if groups[0] == [] {
        FirstIsPlain(defaults, groups[1..]);
      } else {
        assert groups[0][0] in groups[0];
        CommandTellsWord(defaults, groups[0][0], SEPARATOR);
      }
    }
  }

  /** The words between separators. */
  function Split(words: seq<string>): (groups: seq<seq<string>>)
    ensures groups != []
  {
    if words == [] then [[]]
    else if words[0] == SEPARATOR then [[]] + Split(words[1..])
    else
      var rest := Split(words[1..]);
      [[words[0]] + rest[0]] + rest[1..]
  }

  lemma {:induction false} SplitRebuilds(words: seq<string>)
    ensures Flatten(Split(words)) == words + [SEPARATOR]
    ensures forall i :: 0 <= i < |Split(words)| ==> Plain(Split(words)[i])
  {
    if words != [] {
      SplitRebuilds(words[1..]);
      var rest := Split(words[1..]);
      assert words == [words[0]] + words[1..];
      if words[0] == SEPARATOR {
        FlattenGap(rest);
      } else {
        assert [rest[0]] + rest[1..] == rest;
        FlattenWord(words[0], rest[0], rest[1..]);
        AllPlain(words[0], rest[0], rest[1..]);
      }
    }
  }

  lemma FlattenGap(rest: seq<seq<string>>)
    requires forall i :: 0 <= i < |rest| ==> Plain(rest[i])
    ensures Flatten([[]] + rest) == [SEPARATOR] + Flatten(rest)
    ensures forall i :: 0 <= i < |[[]] + rest| ==> Plain(([[]] + rest)[i])
  {
  }

  lemma FlattenWord(word: string, group: seq<string>, others: seq<seq<string>>)
    ensures Flatten([[word] + group] + others) == [word] + Flatten([group] + others)
  {
    FlattenFirst([word] + group, others);
    FlattenFirst(group, others);
    JoinThree(word, group, Flatten(others));
    hide Flatten;
  }

  lemma AllPlain(word: string, group: seq<string>, others: seq<seq<string>>)
    requires word != SEPARATOR && Plain(group) && forall i :: 0 <= i < |others| ==> Plain(others[i])
    ensures forall i :: 0 <= i < |[[word] + group] + others| ==> Plain(([[word] + group] + others)[i])
  {
    PlainWord(word, group);
    hide Plain;
  }

  lemma FlattenFirst(first: seq<string>, others: seq<seq<string>>)
    ensures Flatten([first] + others) == first + [SEPARATOR] + Flatten(others)
  {
    assert ([first] + others)[1..] == others;
  }

  lemma PlainWord(word: string, group: seq<string>)
    requires word != SEPARATOR && Plain(group)
    ensures Plain([word] + group)
  {
  }

  lemma JoinThree(word: string, group: seq<string>, tail: seq<string>)
    ensures [word] + group + [SEPARATOR] + tail == [word] + (group + [SEPARATOR] + tail)
  {
  }

  /** For every list of words, the parser yields one command per group between separators exactly
      when no group but the last is empty: one trailing separator is harmless, a leading or doubled
      one is not. */
  lemma ParsesGroupsIff(defaults: seq<string>, words: seq<string>)
    ensures Scan(defaults, [], words + [SEPARATOR]) == CommandsOf(defaults, Split(words))
            <==> NoGaps(Split(words))
  {
    SplitRebuilds(words);
    if NoGaps(Split(words)) {
      ScanWithoutGaps(defaults, Split(words));
    } else {
      ScanWithGaps(defaults, Split(words));
    }
  }

  // ---------- Round trip ----------

  /** A command that can be written down: parts without slashes, not written as a separator, and no
      argument that is one. */
  ghost predicate Writable(c: Command) {
    && SlashFree(c.cmd) && (forall i :: 0 <= i < |c.roles| ==> SlashFree(c.roles[i]))
    && Word(c.roles, c.cmd) != SEPARATOR
    && SEPARATOR !in c.args
  }

  function GroupOf(c: Command): seq<string> {
    [Word(c.roles, c.cmd)] + c.args
  }

  function GroupsOf(cmds: seq<Command>): seq<seq<string>> {
    if cmds == [] then [] else [GroupOf(cmds[0])] + GroupsOf(cmds[1..])
  }

  /** The written form: a separator between commands, none at the end. */
  function Written(cmds: seq<Command>): seq<string> {
    if cmds == [] then []
    else if |cmds| == 1 then GroupOf(cmds[0])
    else GroupOf(cmds[0]) + [SEPARATOR] + Written(cmds[1..])
  }

  /** The commands with the default roles in front of their own. */
  function WithRoles(defaults: seq<string>, cmds: seq<Command>): (r: seq<Command>)
    ensures |r| == |cmds|
    ensures forall i :: 0 <= i < |cmds| ==> r[i] == Command(defaults + cmds[i].roles, cmds[i].cmd, cmds[i].args)
  {
    if cmds == [] then []
    else [cmds[0].(roles := defaults + cmds[0].roles)] + WithRoles(defaults, cmds[1..])
  }

  lemma {:induction false} GroupsOfWritten(defaults: seq<string>, cmds: seq<Command>)
    requires forall i :: 0 <= i < |cmds| ==> Writable(cmds[i])
    ensures |GroupsOf(cmds)| == |cmds|
    ensures forall i :: 0 <= i < |cmds| ==> GroupsOf(cmds)[i] != [] && Plain(GroupsOf(cmds)[i])
    ensures CommandsOf(defaults, GroupsOf(cmds)) == WithRoles(defaults, cmds)
    ensures CommandsOf(defaults, GroupsOf(cmds) + [[]]) == WithRoles(defaults, cmds)
  {
    if cmds == [] {
      assert GroupsOf(cmds) + [[]] == [[]];
      assert CommandsOf(defaults, [[]][1..]) == [];
    } else {
      GroupsOfWritten(defaults, cmds[1..]);
      var groups := GroupsOf(cmds);
      assert groups[1..] == GroupsOf(cmds[1..]);
      assert (groups + [[]])[1..] == GroupsOf(cmds[1..]) + [[]];
      WordRoundTrip(cmds[0].roles, cmds[0].cmd);
    }
  }

  lemma {:induction false} FlattenWritten(cmds: seq<Command>)
    requires cmds != []
    ensures Flatten(GroupsOf(cmds)) == Written(cmds) + [SEPARATOR]
    ensures Flatten(GroupsOf(cmds) + [[]]) == Written(cmds) + [SEPARATOR] + [SEPARATOR]
  {
    var groups := GroupsOf(cmds);
    assert groups[1..] == GroupsOf(cmds[1..]);
    assert (groups + [[]])[1..] == GroupsOf(cmds[1..]) + [[]];
    if |cmds| == 1 {
      assert cmds[1..] == [] && GroupsOf(cmds[1..]) == [] && Flatten([]) == [];
      assert GroupsOf(cmds[1..]) + [[]] == [[]];
      LastGroupEmpty();
    } else {
      FlattenWritten(cmds[1..]);
    }
  }

  lemma LastGroupEmpty()
    ensures Flatten([[]]) == [SEPARATOR]
  {
  }

  /** Parsing what was written gives the commands back, default roles in front, with or without one
      trailing separator. */
  lemma ParsesWritten(defaults: seq<string>, cmds: seq<Command>)
    requires cmds != [] && forall i :: 0 <= i < |cmds| ==> Writable(cmds[i])
    ensures Scan(defaults, [], Written(cmds) + [SEPARATOR]) == WithRoles(defaults, cmds)
    ensures Scan(defaults, [], Written(cmds) + [SEPARATOR] + [SEPARATOR]) == WithRoles(defaults, cmds)
  {
    GroupsOfWritten(defaults, cmds);
    FlattenWritten(cmds);
    ScanWithoutGaps(defaults, GroupsOf(cmds));
    ScanWithoutGaps(defaults, GroupsOf(cmds) + [[]]);
  }
}
