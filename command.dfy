/** The command lines both player classes write to the engine's standard input: the
    words of the command joined by single spaces, then one line feed. */
module Command {
  import opened JsString

  /** The banner the engine prints on standard output once it accepts commands; both
      player classes wait for it. */
  const ReadyBanner: string := "CPLAYER: MPlayer"

  /** A command argument: a string, or an (integer) number. */
  datatype Arg = Str(s: string) | Num(n: int)

  /** Template-literal rendering of one argument. */
  function Render(a: Arg): string
  {
    match a
    case Str(s) => s
    case Num(n) => Decimal(n)
  }

  /** The rendered words of an argument list, in order. */
  function RenderAll(args: seq<Arg>): seq<string>
  {
    seq(|args|, i requires 0 <= i < |args| => Render(args[i]))
  }

  /** `${words.join(' ')}\n`. */
  function CommandLine(words: seq<string>): string
  {
    Join(words, " ") + "\n"
  }

  /** A word that can travel inside a command line unchanged: no space, no line feed. */
  predicate PlainWord(w: string)
  {
    ' ' !in w && '\n' !in w
  }

  /** A command line ends in its only line feed, and splitting what precedes it on
      spaces gives back the words, provided none of them holds a space or a line feed. */
  lemma CommandLineRoundTrip(words: seq<string>)
    requires |words| >= 1
    requires forall i :: 0 <= i < |words| ==> PlainWord(words[i])
    ensures var line := CommandLine(words);
            |line| >= 1 && line[|line| - 1] == '\n'
            && '\n' !in line[..|line| - 1]
            && Split(line[..|line| - 1], ' ') == words
  {
    var line := CommandLine(words);
    assert line[..|line| - 1] == Join(words, " ");
    JoinAvoids(words, " ", '\n');
    SplitJoin(words, ' ');
  }

  /** Numbers render without spaces or line feeds. */
  lemma NumberIsPlain(n: int)
    ensures PlainWord(Render(Num(n)))
  {
    var r := Decimal(n);
    assert forall k :: 0 <= k < |r| ==> r[k] != ' ' && r[k] != '\n';
  }

  /** The command line of an argument list whose strings are plain words carries its
      rendered arguments back out. */
  lemma ArgsRoundTrip(args: seq<Arg>)
    requires |args| >= 1
    requires forall i :: 0 <= i < |args| && args[i].Str? ==> PlainWord(args[i].s)
    ensures var line := CommandLine(RenderAll(args));
            |line| >= 1 && line[|line| - 1] == '\n'
            && Split(line[..|line| - 1], ' ') == RenderAll(args)
  {
    var words := RenderAll(args);
    forall i | 0 <= i < |words|
      ensures PlainWord(words[i])
    {
      if args[i].Num? {
        NumberIsPlain(args[i].n);
      }
    }
    CommandLineRoundTrip(words);
  }
}
