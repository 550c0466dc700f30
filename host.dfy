/** The host's command execution, as a stand-in for `os.system`,
    `subprocess` and the container runner: every invocation is logged and
    gets the return code an oracle fixed in advance. A mount or unmount
    command that returns 0 changes the host's mount table. */
module Host {

  /** One command the harness hands to the host. */
  datatype Invocation =
    | System(line: string)                      // os.system(line)
    | Mount(line: string, target: string)       // os.system of a mount command for `target`
    | Umount(line: string, target: string)      // os.system of an unmount command for `target`
    | Run(argv: seq<string>)                    // subprocess with an argument vector
    | Container(image: string, volume: string)  // testhelper.podman_run(image, volume)

  /** The mount table after `inv` returned `code`. */
  function Effect(mounted: set<string>, inv: Invocation, code: int): set<string>
  {
    if code != 0 then mounted
    else match inv
      case Mount(_, target) => mounted + {target}
      case Umount(_, target) => mounted - {target}
      case _ => mounted
  }

  class Shell {
    /** The return code of the k-th invocation. */
    const codes: nat -> int
    /** Everything run so far, in order. */
    var log: seq<Invocation>
    /** The mount points that currently have a share mounted. */
    var mounted: set<string>

    constructor (codes: nat -> int, mounted: set<string>)
      ensures this.codes == codes && log == [] && this.mounted == mounted
    {
      this.codes := codes;
      log := [];
      this.mounted := mounted;
    }

    method Exec(inv: Invocation) returns (code: int)
      modifies this
      ensures log == old(log) + [inv]
      ensures code == codes(|old(log)|)
      ensures mounted == Effect(old(mounted), inv, code)
    {
      code := codes(|log|);
      log := log + [inv];
      mounted := Effect(mounted, inv, code);
    }

    /** Every invocation from index `from` on returned 0. */
    ghost predicate AllSucceeded(from: nat)
      reads this
    {
      forall k :: from <= k < |log| ==> codes(k) == 0
    }

    /** Every unmount from index `from` on returned 0. */
    ghost predicate UmountsSucceeded(from: nat)
      reads this
    {
      forall k :: from <= k < |log| && log[k].Umount? ==> codes(k) == 0
    }
  }
}
