/** Parsed Dockerfiles, as the build engine receives them. */
module Dockerfile {
  import opened Wrappers

  datatype CommandForm = ShellForm(text: string) | ExecForm(args: seq<string>)

  datatype MountType = Bind | Cache | Tmpfs | Secret | Ssh

  datatype MountFlag = MountFlag(
    mountType: MountType,
    target: string,
    source: Option<string>,
    readOnly: bool,
    id: Option<string>)

  /** Metadata stands for the instructions that only record image metadata: CMD, ENTRYPOINT,
      USER, EXPOSE, LABEL, STOPSIGNAL, HEALTHCHECK and VOLUME. */
  datatype Instruction =
    | Run(command: CommandForm, mounts: seq<MountFlag>)
    | Copy(sources: seq<string>, dest: string, from: Option<string>)
    | Add(sources: seq<string>, dest: string)
    | Env(vars: seq<(string, string)>)
    | Arg(name: string, defaultValue: Option<string>)
    | Workdir(path: string)
    | Shell(shell: seq<string>)
    | Metadata

  datatype Stage = Stage(image: string, alias: Option<string>, instructions: seq<Instruction>)
}
