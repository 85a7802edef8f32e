/**
 * src/commands/parser.hpp: the reversed argument vector and the check that
 * consumes a command from its back.
 */
module CommandLine {
  import opened Wrappers

  /** `s` in reverse order. */
  function Reversed<T>(s: seq<T>): (r: seq<T>)
    ensures |r| == |s|
    ensures forall k :: 0 <= k < |s| ==> r[k] == s[|s| - 1 - k]
  {
    if s == [] then [] else Reversed(s[1..]) + [s[0]]
  }

  /** Reversing twice gives back the original order. */
  lemma ReversedTwice<T>(s: seq<T>)
    ensures Reversed(Reversed(s)) == s
  {
  }

  /** The first character of a C string: the terminating NUL for an empty one. */
  function ShortName(name: string): string {
    if name == [] then ['\0'] else [name[0]]
  }

  /**
   * Every spelling that selects a command: the name, with or without `--`;
   * its first letter, with or without `-`; and the alias if there is one,
   * with `-` when it is one character long and `--` otherwise.
   */
  function Spellings(name: string, alias: Option<string>): set<string> {
    {name, "--" + name, ShortName(name), "-" + ShortName(name)}
    + match alias
      case None => {}
      case Some(a) => {a, (if |a| == 1 then "-" else "--") + a}
  }

  class Arguments {
    /** The arguments not yet consumed; the first one is at the back. */
    var args: seq<string>

    /**
     * `create_arguments_vector`: the arguments after the program name,
     * copied into a vector and reversed in place.
     */
    constructor(argv: seq<string>)
      requires |argv| >= 1
      ensures args == Reversed(argv[1..])
      ensures |argv| >= 2 ==> args[|args| - 1] == argv[1]
    {
      var given := argv[1..];
      var buffer := new string[|given|](k requires 0 <= k < |given| => given[k]);
      var n := buffer.Length;
      var i := 0;
      while i < n / 2
        invariant 0 <= i <= n / 2
        invariant forall k :: 0 <= k < i ==> buffer[k] == given[n - 1 - k] && buffer[n - 1 - k] == given[k]
        invariant forall k :: i <= k < n - i ==> buffer[k] == given[k]
      {
        buffer[i], buffer[n - 1 - i] := buffer[n - 1 - i], buffer[i];
        i := i + 1;
      }
      args := buffer[..];
    }

    /**
     * `check_command(args, name, alias)`: when the last argument is one of
     * the command's spellings, remove it and report true; otherwise leave
     * the arguments alone. `alias_v[1]` is read, so an alias is never empty;
     * both are C strings, so neither holds a NUL.
     */
    method CheckCommand(name: string, alias: Option<string>) returns (found: bool)
      requires '\0' !in name
      requires alias.Some? ==> |alias.value| >= 1 && '\0' !in alias.value
      modifies this
      ensures found <==> |old(args)| > 0 && old(args)[|old(args)| - 1] in Spellings(name, alias)
      ensures found ==> args == old(args)[..|old(args)| - 1]
      ensures !found ==> args == old(args)
    {
      if |args| == 0 {
        return false;
      }
      var toCheck := args[|args| - 1];
      if toCheck == name || toCheck == "--" + name {
        args := args[..|args| - 1];
        return true;
      }
      var shortName := ShortName(name);
      if toCheck == shortName || toCheck == "-" + shortName {
        args := args[..|args| - 1];
        return true;
      }
      if alias.Some? {
        var aliasDash := (if |alias.value| == 1 then "-" else "--") + alias.value;
        if toCheck == alias.value || toCheck == aliasDash {
          args := args[..|args| - 1];
          return true;
        }
      }
      return false;
    }
  }
}
