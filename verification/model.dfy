/**
 * The project document (model/model.go): deployment targets, the schema of the
 * project structs, and the document tree the path engine walks.
 *
 * Go reaches the fields of a `*model.Project` by reflection on `json` tags.
 * Here the document is an explicit tree: an object lists its fields as
 * (tag, child) pairs in declaration order, a collection lists its elements,
 * and a scalar holds a string, bool or int. The kind Go reads with
 * `reflect.Kind` (Struct, Slice, anything else) is the constructor of the child.
 */
module Model {
  import opened Wrappers
  import opened Strings

  // ------------------------------------------------------ target

  const WildFly: string := "wildfly"
  const EAP: string := "eap"

  /** A product name and version, written `name:version`. */
  datatype Target = Target(name: string, version: string)

  const SupportedTargets: seq<Target> := [Target(WildFly, "8.0"), Target(WildFly, "8.1"), Target(EAP, "6.3")]

  /** The xmlns version of the configuration files of each supported target. */
  const ModelVersions: map<string, Target> := map[
    "2.0" := Target(WildFly, "8.0"),
    "2.1" := Target(WildFly, "8.1"),
    "1.6" := Target(EAP, "6.3")
  ]

  /** `Target.String`: the name and the version around a colon. */
  function TargetString(t: Target): (s: string)
    ensures |s| == |t.name| + 1 + |t.version|
    ensures s[..|t.name|] == t.name && s[|t.name|] == ':' && s[|t.name| + 1..] == t.version
  {
    t.name + ":" + t.version
  }

  datatype TargetError = IllegalFormat | UnsupportedTarget

  /**
   * The receiver of `Target.Set` after the call, together with the error the
   * call returned (`None` for a nil error).
   */
  datatype SetOutcome = SetOutcome(target: Target, err: Option<TargetError>)

  /**
   * `Target.Set`, the flag parser: exactly two colon-separated parts are needed,
   * and the receiver is overwritten with them before they are checked against
   * the supported targets.
   */
  function SetTarget(receiver: Target, value: string): (r: SetOutcome)
    ensures r.err == Some(IllegalFormat) <==> |Split(value, ':')| != 2
    ensures r.err == Some(IllegalFormat) ==> r.target == receiver
    ensures r.err != Some(IllegalFormat) ==> Join([r.target.name, r.target.version], ':') == value
    ensures r.err.None? <==> r.err != Some(IllegalFormat) && r.target in SupportedTargets
    ensures r.err.Some? ==> r.err == Some(IllegalFormat) || r.err == Some(UnsupportedTarget)
  {
    var parts := Split(value, ':');
    if |parts| != 2 then SetOutcome(receiver, Some(IllegalFormat))
    else
      JoinSplit(value, ':');
      var candidate := Target(parts[0], parts[1]);
      if candidate in SupportedTargets then SetOutcome(candidate, None)
      else SetOutcome(candidate, Some(UnsupportedTarget))
  }

  /** `Set` accepts exactly the three spellings of the supported targets. */
  lemma SetAcceptsExactlySupported(receiver: Target, value: string)
    ensures SetTarget(receiver, value).err.None?
      <==> value == "wildfly:8.0" || value == "wildfly:8.1" || value == "eap:6.3"
  {
    var r := SetTarget(receiver, value);
    SupportedSpellings();
    if r.err.None? {
      JoinPair(r.target.name, r.target.version, ':');
      assert value == TargetString(r.target);
      assert r.target == SupportedTargets[0] || r.target == SupportedTargets[1] || r.target == SupportedTargets[2];
    }
    if value == "wildfly:8.0" {
      SetInvertsString(receiver, SupportedTargets[0]);
    } else if value == "wildfly:8.1" {
      SetInvertsString(receiver, SupportedTargets[1]);
    } else if value == "eap:6.3" {
      SetInvertsString(receiver, SupportedTargets[2]);
    }
  }

  lemma SupportedSpellings()
    ensures TargetString(SupportedTargets[0]) == "wildfly:8.0"
    ensures TargetString(SupportedTargets[1]) == "wildfly:8.1"
    ensures TargetString(SupportedTargets[2]) == "eap:6.3"
  {
  }

  /** Printing a supported target and setting it back yields that target. */
  lemma SetInvertsString(receiver: Target, t: Target)
    requires t in SupportedTargets
    ensures SetTarget(receiver, TargetString(t)) == SetOutcome(t, None)
  {
    assert ':' !in t.name && ':' !in t.version;
    JoinPair(t.name, t.version, ':');
    SplitJoin([t.name, t.version], ':');
  }

  /** Every xmlns model version maps to a supported target. */
  lemma ModelVersionsAreSupported()
    ensures forall v :: v in ModelVersions ==> ModelVersions[v] in SupportedTargets
  {
  }

  // ------------------------------------------------------ document tree

  /** The three kinds the path engine tells apart. */
  datatype Kind = ObjectKind | CollectionKind | ScalarKind

  datatype Value = Str(s: string) | Bool(b: bool) | Int(i: int)

  /**
   * A node of the project document. `name` is the value of the Go field called
   * `Name` when the struct has one; it is what a named index compares against,
   * whatever the field's tag is.
   */
  datatype Node =
    | Obj(fields: seq<Field>, name: Option<string>)
    | Coll(elems: seq<Node>)
    | Scalar(value: Value)

  /** A struct field as the resolver sees it: its `json` tag and its value. */
  datatype Field = Field(tag: string, child: Node)

  function KindOf(n: Node): Kind
  {
    match n
    case Obj(_, _) => ObjectKind
    case Coll(_) => CollectionKind
    case Scalar(_) => ScalarKind
  }

  /** The field a tag selects: the first one carrying it, as the resolver's scan of the tags finds it. */
  function Lookup(fields: seq<Field>, tag: string): (r: Option<Node>)
    ensures r.None? <==> forall i :: 0 <= i < |fields| ==> fields[i].tag != tag
    ensures r.Some? ==> exists i :: 0 <= i < |fields| && fields[i] == Field(tag, r.value)
  {
    if |fields| == 0 then None
    else if fields[0].tag == tag then Some(fields[0].child)
    else
      var r := Lookup(fields[1..], tag);
      assert r.Some? ==> exists i :: 0 <= i < |fields[1..]| && fields[1..][i] == Field(tag, r.value);
      r
  }

  /** The kind of every field, keyed by tag; the first field wins when a tag repeats. */
  function FieldKinds(fields: seq<Field>): (m: map<string, Kind>)
    ensures forall tag :: tag in m <==> Lookup(fields, tag).Some?
    ensures forall tag :: tag in m ==> m[tag] == KindOf(Lookup(fields, tag).value)
  {
    if |fields| == 0 then map[]
    else FieldKinds(fields[1..])[fields[0].tag := KindOf(fields[0].child)]
  }

  /**
   * The child enumerator: every tag of an object with the kind of its value.
   * Only structs have tags; any other node has none.
   */
  function Children(n: Node): (m: map<string, Kind>)
    ensures forall tag :: tag in m <==> n.Obj? && Lookup(n.fields, tag).Some?
    ensures forall tag :: tag in m ==> m[tag] == KindOf(Lookup(n.fields, tag).value)
  {
    if n.Obj? then FieldKinds(n.fields) else map[]
  }

  // ------------------------------------------------------ schema

  /** The struct types reachable from `Project`. */
  datatype StructType =
    | ProjectType | ConfigType | TemplatesType | ServerGroupType | DeploymentType
    | HostType | ServerType | BoundedMemoryType | JvmType | UserType

  /** Go field types, as far as reflection tells them apart. */
  datatype FieldType = StringType | BoolType | IntType | StructOf(struct: StructType) | SliceOf(elem: FieldType)

  /** One struct field: its Go identifier, its `json` tag and its type. */
  datatype FieldDecl = FieldDecl(goName: string, tag: string, ftype: FieldType)

  /** The struct declarations, field by field in declaration order. */
  function Declared(t: StructType): seq<FieldDecl>
  {
    match t
    case ProjectType => [
      FieldDecl("Name", "name", StringType),
      FieldDecl("Version", "version", StringType),
      FieldDecl("Config", "config", StructOf(ConfigType)),
      FieldDecl("ServerGroups", "server-groups", SliceOf(StructOf(ServerGroupType))),
      FieldDecl("Hosts", "hosts", SliceOf(StructOf(HostType))),
      FieldDecl("Users", "users", SliceOf(StructOf(UserType)))]
    case ConfigType => [
      FieldDecl("Templates", "templates", StructOf(TemplatesType)),
      FieldDecl("ConsoleUser", "console-user", StructOf(UserType)),
      FieldDecl("DomainUser", "domain-user", StructOf(UserType)),
      FieldDecl("DockerRemoteAPI", "docker-remote-api", StringType)]
    case TemplatesType => [
      FieldDecl("Domain", "domain", StringType),
      FieldDecl("HostMaster", "host-master", StringType),
      FieldDecl("HostSlave", "host-slave", StringType)]
    case ServerGroupType => [
      FieldDecl("Name", "name", StringType),
      FieldDecl("Profile", "profile", StringType),
      FieldDecl("SocketBinding", "socket-binding", StringType),
      FieldDecl("Jvm", "jvm", StructOf(JvmType)),
      FieldDecl("Deployments", "deployments", SliceOf(StructOf(DeploymentType)))]
    case DeploymentType => [
      FieldDecl("Name", "name", StringType),
      FieldDecl("RuntimeName", "runtime-name", StringType),
      FieldDecl("Path", "path", StringType)]
    case HostType => [
      FieldDecl("Name", "name", StringType),
      FieldDecl("DC", "domain-controller", BoolType),
      FieldDecl("Servers", "servers", SliceOf(StructOf(ServerType))),
      FieldDecl("Jvm", "jvm", StructOf(JvmType))]
    case ServerType => [
      FieldDecl("Name", "name", StringType),
      FieldDecl("ServerGroup", "server-group", StringType),
      FieldDecl("PortOffset", "port-offset", IntType),
      FieldDecl("AutoStart", "auto-start", BoolType),
      FieldDecl("Jvm", "jvm", StructOf(JvmType))]
    case BoundedMemoryType => [
      FieldDecl("Initial", "initial", StringType),
      FieldDecl("Max", "max", StringType)]
    case JvmType => [
      FieldDecl("Name", "name", StringType),
      FieldDecl("Heap", "heap", StructOf(BoundedMemoryType)),
      FieldDecl("PermGem", "perm-gen", StringType),
      FieldDecl("Stack", "stack", StringType),
      FieldDecl("Options", "options", SliceOf(StringType))]
    case UserType => [
      FieldDecl("Name", "username", StringType),
      FieldDecl("Password", "password", StringType)]
  }

  function FieldKind(ft: FieldType): Kind
  {
    match ft
    case StructOf(_) => ObjectKind
    case SliceOf(_) => CollectionKind
    case _ => ScalarKind
  }

  /** The tag-to-kind table of a list of declarations; the first declaration wins when a tag repeats. */
  function DeclaredKinds(decls: seq<FieldDecl>): map<string, Kind>
  {
    if |decls| == 0 then map[]
    else DeclaredKinds(decls[1..])[decls[0].tag := FieldKind(decls[0].ftype)]
  }

  /** The tag-to-kind table of a struct type, read off its declaration. */
  function SchemaKinds(t: StructType): map<string, Kind>
  {
    DeclaredKinds(Declared(t))
  }

  /** Position of the Go field `Name` in a struct declaration, if it has one. */
  function NameSlot(decls: seq<FieldDecl>): (r: Option<nat>)
    ensures r.Some? ==> r.value < |decls| && decls[r.value].goName == "Name"
    ensures r.None? ==> forall i :: 0 <= i < |decls| ==> decls[i].goName != "Name"
  {
    if |decls| == 0 then None
    else if decls[0].goName == "Name" then Some(0)
    else match NameSlot(decls[1..])
      case None => None
      case Some(i) => Some(i + 1)
  }

  /** The value a struct's `Name` field holds, if the struct has such a field. */
  function NameValue(t: StructType, fields: seq<Field>): Option<string>
  {
    match NameSlot(Declared(t))
    case None => None
    case Some(k) =>
      if k < |fields| && fields[k].child.Scalar? && fields[k].child.value.Str?
      then Some(fields[k].child.value.s)
      else None
  }

  /** The node is a value of the Go type `ft`: the shape JSON loading produces. */
  predicate Conforms(n: Node, ft: FieldType)
    decreases n
  {
    match ft
    case StringType => n.Scalar? && n.value.Str?
    case BoolType => n.Scalar? && n.value.Bool?
    case IntType => n.Scalar? && n.value.Int?
    case SliceOf(elem) => n.Coll? && forall i :: 0 <= i < |n.elems| ==> Conforms(n.elems[i], elem)
    case StructOf(t) =>
      && n.Obj?
      && |n.fields| == |Declared(t)|
      && (forall i :: 0 <= i < |n.fields| ==>
            n.fields[i].tag == Declared(t)[i].tag && Conforms(n.fields[i].child, Declared(t)[i].ftype))
      && n.name == NameValue(t, n.fields)
  }

  /** Fields that line up with declarations, tag by tag and kind by kind, yield the same table. */
  lemma {:induction false} FieldKindsAlign(fields: seq<Field>, decls: seq<FieldDecl>)
    requires |fields| == |decls|
    requires forall i :: 0 <= i < |fields| ==>
      fields[i].tag == decls[i].tag && KindOf(fields[i].child) == FieldKind(decls[i].ftype)
    ensures FieldKinds(fields) == DeclaredKinds(decls)
    decreases |fields|
  {
    if |fields| > 0 {
      FieldKindsAlign(fields[1..], decls[1..]);
    }
  }

  lemma ConformsKind(n: Node, ft: FieldType)
    requires Conforms(n, ft)
    ensures KindOf(n) == FieldKind(ft)
  {
  }

  /** The kinds the child enumerator reports for a document node are those its struct declares. */
  lemma ChildrenFollowSchema(n: Node, t: StructType)
    requires Conforms(n, StructOf(t))
    ensures Children(n) == SchemaKinds(t)
  {
    forall i | 0 <= i < |n.fields|
      ensures KindOf(n.fields[i].child) == FieldKind(Declared(t)[i].ftype)
    {
      ConformsKind(n.fields[i].child, Declared(t)[i].ftype);
    }
    FieldKindsAlign(n.fields, Declared(t));
  }

  /**
   * Named indexes compare against the Go field `Name`: for a user that is the
   * value under the tag `username`.
   */
  lemma UserNameIsUsername(n: Node)
    requires Conforms(n, StructOf(UserType))
    ensures n.name.Some? && Lookup(n.fields, "username") == Some(Scalar(Str(n.name.value)))
  {
    assert n.fields[0].tag == "username";
    assert Conforms(n.fields[0].child, StringType);
  }

  /** Lookup finds the first field carrying the tag. */
  lemma {:induction false} LookupAt(fields: seq<Field>, i: nat, tag: string)
    requires i < |fields| && fields[i].tag == tag
    requires forall j :: 0 <= j < i ==> fields[j].tag != tag
    ensures Lookup(fields, tag) == Some(fields[i].child)
    decreases i
  {
    if i > 0 {
      LookupAt(fields[1..], i - 1, tag);
    }
  }

  /** One field of a conforming struct: its tag and its shape are the declared ones. */
  lemma ConformsField(n: Node, t: StructType, i: nat)
    requires Conforms(n, StructOf(t)) && i < |Declared(t)|
    ensures i < |n.fields| && n.fields[i].tag == Declared(t)[i].tag
    ensures Conforms(n.fields[i].child, Declared(t)[i].ftype)
  {
  }

  /** The JVM options are bare strings: a collection whose elements have no name. */
  lemma JvmOptionsAreBare(n: Node)
    requires Conforms(n, StructOf(JvmType))
    ensures Lookup(n.fields, "options").Some?
    ensures var opts := Lookup(n.fields, "options").value;
      opts.Coll? && forall i :: 0 <= i < |opts.elems| ==> opts.elems[i].Scalar?
  {
    var f := n.fields;
    forall j | 0 <= j < 4
      ensures f[j].tag != "options"
    {
      ConformsField(n, JvmType, j);
    }
    ConformsField(n, JvmType, 4);
    LookupAt(f, 4, "options");
    var opts := f[4].child;
    forall i | 0 <= i < |opts.elems|
      ensures opts.elems[i].Scalar?
    {
      assert Conforms(opts.elems[i], StringType);
    }
  }

  /** The tag-to-kind table of `Project`. */
  lemma ProjectSchema()
    ensures SchemaKinds(ProjectType) == map[
      "name" := ScalarKind, "version" := ScalarKind, "config" := ObjectKind,
      "server-groups" := CollectionKind, "hosts" := CollectionKind, "users" := CollectionKind]
  {
  }

  /** `Project.Set` is still a stub: the document is left as it was, whatever the arguments. */
  function ProjectSet(project: Node, path: string, values: seq<string>): (r: Node)
    ensures r == project
  {
    project
  }
}
