/** The working directory shared by successive evaluations: the names
    `os.listdir` returns, in its order, and the contents of the regular files
    among them as `readlines()` returns them. A listed name with no contents
    is an entry that cannot be opened as a text file (a sub-directory, say). */
module Workspaces {
  import opened Process
  import opened Text

  datatype Workspace = Workspace(listing: seq<string>, files: map<string, seq<string>>)

  /** The side effects of one evaluation, in the order they happen.
      `Invoked` records an attempt to launch a process, whether or not it
      could be started. */
  datatype Event =
    | Rewrote(name: string, lines: seq<string>)
    | Invoked(call: Call)
    | Removed(name: string)

  /** The listing with every entry `x` dropped, the others kept in order. */
  function Without(names: seq<string>, x: string): (r: seq<string>)
    ensures forall y :: y in r <==> y in names && y != x
    ensures |r| <= |names|
  {
    if |names| == 0 then []
    else if names[0] == x then Without(names[1..], x)
    else [names[0]] + Without(names[1..], x)
  }

  /** Truncating the file `name` and writing `lines` back with
      `writelines`. The file then holds their concatenation, so a later
      `readlines()` gives that text cut after each newline, which is `lines`
      itself when it already has that shape. */
  function Write(ws: Workspace, name: string, lines: seq<string>): (r: Workspace)
    ensures r.listing == ws.listing
    ensures name in r.files && WriteLines(r.files[name]) == WriteLines(lines) && LineShaped(r.files[name])
    ensures LineShaped(lines) ==> r.files[name] == lines
    ensures forall n :: n != name ==> (n in r.files <==> n in ws.files)
    ensures forall n :: n != name && n in ws.files ==> r.files[n] == ws.files[n]
  {
    var contents := ReadLines(WriteLines(lines));
    assert LineShaped(lines) ==> contents == lines by {
      if LineShaped(lines) {
        ReadLinesOfWriteLines(lines);
      }
    }
    ws.(files := ws.files[name := contents])
  }

  /** `os.remove(name)`: the entry disappears from the listing and its
      contents are gone; every other entry is untouched. */
  function Remove(ws: Workspace, name: string): (r: Workspace)
    ensures name !in r.listing && name !in r.files
    ensures forall n :: n != name ==> (n in r.listing <==> n in ws.listing)
    ensures forall n :: n != name ==> (n in r.files <==> n in ws.files)
    ensures forall n :: n != name && n in ws.files ==> r.files[n] == ws.files[n]
  {
    Workspace(Without(ws.listing, name), ws.files - {name})
  }

  /** The harness's own effect of one event on the workspace. Launching a
      process changes the workspace only through what the process itself
      does, which the simulator oracle accounts for. */
  function Apply(ws: Workspace, e: Event): Workspace {
    match e
    case Rewrote(name, lines) => Write(ws, name, lines)
    case Invoked(_) => ws
    case Removed(name) => Remove(ws, name)
  }

  function Replay(ws: Workspace, events: seq<Event>): Workspace
    decreases |events|
  {
    if |events| == 0 then ws else Replay(Apply(ws, events[0]), events[1..])
  }

  /** The process launches recorded in a trace, in order. */
  function Invocations(events: seq<Event>): (r: seq<Call>)
    ensures |r| <= |events|
    decreases |events|
  {
    if |events| == 0 then []
    else (if events[0].Invoked? then [events[0].call] else []) + Invocations(events[1..])
  }

  lemma {:induction false} InvocationsAppend(a: seq<Event>, b: seq<Event>)
    ensures Invocations(a + b) == Invocations(a) + Invocations(b)
    decreases |a|
  {
    if |a| > 0 {
      assert (a + b)[1..] == a[1..] + b;
      InvocationsAppend(a[1..], b);
    } else {
      assert a + b == b;
    }
  }
}
