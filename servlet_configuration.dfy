/**
 * The configuration a servlet is initialised with: its name, the servlet
 * context it runs in, and its init parameters from the deployment descriptor.
 */
module ServletConfigurations {
  import opened Wrappers

  /**
   * `getServerVars`, the configuration's server admin value given as
   * `serverAdmin`: both entries carry that value.
   */
  function ServerVars(serverAdmin: string): (r: map<string, string>)
    ensures r.Keys == {"SERVER_ADMIN", "SERVER_SOFTWARE"}
    ensures r["SERVER_ADMIN"] == serverAdmin && r["SERVER_SOFTWARE"] == serverAdmin
  {
    map["SERVER_ADMIN" := serverAdmin, "SERVER_SOFTWARE" := serverAdmin]
  }

  class ServletConfiguration<Context> {
    var servletName: Option<string>
    const servletContext: Context
    var initParameter: map<string, string>

    /** A configuration bound to `servletContext`, without a name and without init parameters. */
    constructor (servletContext: Context)
      ensures GetServletContext() == servletContext
      ensures GetServletName() == None
      ensures forall name :: GetInitParameter(name) == None
    {
      this.servletContext := servletContext;
      servletName := None;
      initParameter := map[];
    }

    /** The context the configuration was created with. */
    function GetServletContext(): Context {
      servletContext
    }

    /** The name last set, if any. */
    function GetServletName(): Option<string>
      reads this
    {
      servletName
    }

    method SetServletName(name: string)
      modifies this
      ensures GetServletName() == Some(name)
      ensures initParameter == old(initParameter)
    {
      servletName := Some(name);
    }

    /** The value registered under `name`; nothing when the name was never registered. */
    function GetInitParameter(name: string): (r: Option<string>)
      reads this
      ensures r.Some? <==> name in initParameter
      ensures r.Some? ==> r.value == initParameter[name]
    {
      Lookup(initParameter, name)
    }

    /** Registers `value` under `name`, replacing an earlier value; every other name keeps its value. */
    method AddInitParameter(name: string, value: string)
      modifies this
      ensures GetInitParameter(name) == Some(value)
      ensures forall other :: other != name ==> GetInitParameter(other) == old(GetInitParameter(other))
      ensures servletName == old(servletName)
    {
      initParameter := initParameter[name := value];
    }
  }
}
